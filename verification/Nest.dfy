// How captured declarations become a file's symbols (rust/crates/oga-context/src/symbols.rs):
// one pass with a stack of what is still open, against what nesting means.
module Nest {
  import opened Basics

  const MAX_SYMBOLS_PER_FILE: nat := 400

  datatype Kind =
    | Fn | Method | Struct | Class | Enum | Variant | TraitKind | Impl
    | TypeKind | Const | Static | ModuleKind | Field | Macro | Heading

  // A captured node: the bytes it spans, and whether the adapter calls it noise.
  datatype Item = Item(start: nat, end: nat, kind: Kind, name: string, noise: bool)

  datatype Symbol = Symbol(kind: Kind, name: string, qualified: string, parent: Option<string>)

  datatype Frame = Frame(end: nat, kind: Kind, qualified: string, closed: bool)

  // What the language adapter may still change about a symbol.
  type Refine = (Item, Symbol) -> Symbol

  predicate HoldsMembers(kind: Kind) {
    kind.Impl? || kind.TraitKind? || kind.Class? || kind.Struct? || kind.Enum?
  }

  predicate IsOpaque(kind: Kind) {
    kind.Fn? || kind.Method? || kind.Const? || kind.Static?
  }

  function SettleKind(kind: Kind, parent: Option<Kind>): Kind {
    if kind.Fn? && parent.Some? && HoldsMembers(parent.value) then Method
    else if kind.Field? && parent.None? then Const
    else kind
  }

  // --- What the order of the items says ---

  // Nodes of one tree: any two are apart, or one lies within the other.
  predicate Apart(a: Item, b: Item) {
    a.end <= b.start || b.end <= a.start
  }

  predicate Within(inner: Item, outer: Item) {
    outer.start <= inner.start && inner.end <= outer.end
  }

  ghost predicate OfOneTree(items: seq<Item>) {
    && (forall i :: 0 <= i < |items| ==> items[i].start <= items[i].end)
    && (forall i, j :: 0 <= i < j < |items| ==>
          Apart(items[i], items[j]) || Within(items[i], items[j]) || Within(items[j], items[i]))
  }

  // Sorted by where they start, the longest first.
  ghost predicate Sorted(items: seq<Item>) {
    forall i, j :: 0 <= i < j < |items| ==>
      items[i].start < items[j].start || (items[i].start == items[j].start && items[i].end >= items[j].end)
  }

  predicate Encloses(items: seq<Item>, i: nat, j: nat)
    requires i < |items| && j < |items|
  {
    i < j && items[j].start < items[i].end
  }

  ghost predicate Nested(items: seq<Item>) {
    && (forall i, j :: 0 <= i < j < |items| ==> items[i].start <= items[j].start)
    && (forall i, j :: 0 <= i < j < |items| && Encloses(items, i, j) ==> items[j].end <= items[i].end)
  }

  lemma {:induction false} SortedTreesAreNested(items: seq<Item>)
    requires OfOneTree(items) && Sorted(items)
    ensures Nested(items)
    ensures forall i, j :: 0 <= i < j < |items| && Encloses(items, i, j) ==> Within(items[j], items[i])
  {
  }

  // --- What nesting means ---

  // The innermost of the first `below` items that encloses item `j`.
  function Innermost(items: seq<Item>, j: nat, below: nat): (r: Option<nat>)
    requires below <= j < |items|
    ensures r.Some? ==> r.value < below && Encloses(items, r.value, j)
    ensures forall i :: (if r.Some? then r.value + 1 else 0) <= i < below ==> !Encloses(items, i, j)
  {
    if below == 0 then None
    else if Encloses(items, below - 1, j) then Some(below - 1)
    else Innermost(items, j, below - 1)
  }

  function Settled(items: seq<Item>, j: nat): Kind
    requires j < |items|
  {
    match Innermost(items, j, j)
    case None => SettleKind(items[j].kind, None)
    case Some(i) => SettleKind(items[j].kind, Some(Settled(items, i)))
  }

  function Qualified(parent: Option<string>, separator: string, name: string): string {
    if parent.Some? then parent.value + separator + name else name
  }

  // The symbol of an item: named after the innermost item around it.
  function Made(items: seq<Item>, separator: string, refine: Refine, j: nat): Symbol
    requires j < |items|
  {
    var parent := match Innermost(items, j, j)
                  case None => None
                  case Some(i) => Some(Made(items, separator, refine, i).qualified);
    refine(items[j], Symbol(Settled(items, j), items[j].name, Qualified(parent, separator, items[j].name), parent))
  }

  // Nothing inside a noise item or an opaque one counts.
  predicate Closed(items: seq<Item>, j: nat)
    requires j < |items|
  {
    items[j].noise || IsOpaque(Settled(items, j))
  }

  predicate Hidden(items: seq<Item>, j: nat)
    requires j < |items|
  {
    exists i: nat :: i < j && Encloses(items, i, j) && Closed(items, i)
  }

  predicate Counts(items: seq<Item>, j: nat)
    requires j < |items|
  {
    !items[j].noise && !Hidden(items, j)
  }

  // The symbols of the first `n` items.
  function Symbols(items: seq<Item>, separator: string, refine: Refine, n: nat): seq<Symbol>
    requires n <= |items|
  {
    if n == 0 then []
    else
      var last := if Counts(items, n - 1) then [Made(items, separator, refine, n - 1)] else [];
      Symbols(items, separator, refine, n - 1) + last
  }

  function First<T>(s: seq<T>, n: nat): seq<T> {
    if |s| <= n then s else s[..n]
  }

  // --- Lemmas about nesting ---

  // What is around something around an item is around the item.
  lemma {:induction false} Outward(items: seq<Item>, i: nat, j: nat, k: nat)
    requires Nested(items) && k < |items| && i < j < k
    requires Encloses(items, i, j) && Encloses(items, j, k)
    ensures Encloses(items, i, k)
  {
  }

  lemma {:induction false} HiddenWithin(items: seq<Item>, i: nat, j: nat)
    requires Nested(items) && i < j < |items| && Encloses(items, i, j) && Hidden(items, i)
    ensures Hidden(items, j)
  {
    var k: nat :| k < i && Encloses(items, k, i) && Closed(items, k);
    Outward(items, k, i, j);
  }

  lemma {:induction false} SeenOutward(items: seq<Item>, i: nat, j: nat)
    requires Nested(items) && i < j < |items| && Encloses(items, i, j) && !Hidden(items, j)
    ensures !Hidden(items, i) && !Closed(items, i)
  {
    if Hidden(items, i) {
      HiddenWithin(items, i, j);
    }
  }

  // Whatever is hidden is hidden by something that is not.
  lemma {:induction false} HiddenByTheSeen(items: seq<Item>, j: nat) returns (i: nat)
    requires Nested(items) && j < |items| && Hidden(items, j)
    ensures i < j && Encloses(items, i, j) && Closed(items, i) && !Hidden(items, i)
  {
    i :| i < j && Encloses(items, i, j) && Closed(items, i);
    if Hidden(items, i) {
      var k := HiddenByTheSeen(items, i);
      Outward(items, k, i, j);
      i := k;
    }
  }

  // A symbol's parent is a symbol too, and comes before it.
  lemma {:induction false} ParentsAreSymbols(items: seq<Item>, j: nat)
    requires Nested(items) && j < |items| && Counts(items, j)
    ensures var parent := Innermost(items, j, j);
            parent.Some? ==> Counts(items, parent.value) && !Closed(items, parent.value)
  {
    var parent := Innermost(items, j, j);
    if parent.Some? {
      SeenOutward(items, parent.value, j);
    }
  }

  // A field is inside something, a plain function is not a member of anything, and nothing
  // is inside a function, a method, a constant or a static.
  lemma {:induction false} KindsFitTheirPlaces(items: seq<Item>, j: nat)
    requires Nested(items) && j < |items| && Counts(items, j)
    ensures var parent := Innermost(items, j, j);
            && (Settled(items, j).Field? ==> parent.Some?)
            && (Settled(items, j).Fn? && parent.Some? ==> !HoldsMembers(Settled(items, parent.value)))
            && (parent.Some? ==> !IsOpaque(Settled(items, parent.value)))
  {
    var parent := Innermost(items, j, j);
    if parent.Some? {
      SeenOutward(items, parent.value, j);
    }
  }

  // Which items become symbols: those that are not noise and lie in nothing that is noise, or
  // that has turned out a function, a method, a constant or a static.
  lemma {:induction false} SymbolsAre(items: seq<Item>, j: nat)
    requires j < |items|
    ensures Counts(items, j) <==>
              && !items[j].noise
              && forall i: nat :: i < j && items[j].start < items[i].end ==>
                   !items[i].noise && Settled(items, i) !in {Fn, Method, Const, Static}
  {
    hide Settled;
    assert forall i: nat :: i < j ==> (Encloses(items, i, j) <==> items[j].start < items[i].end);
  }

  // What an item turns out to be: a function right inside an implementation, a trait, a class,
  // a struct or an enum is a method, a field in nothing is a constant, and all else is what
  // it was captured as.
  lemma {:induction false} KindsAre(items: seq<Item>, j: nat)
    requires j < |items|
    ensures Settled(items, j) ==
            match Innermost(items, j, j)
            case None => if items[j].kind == Field then Const else items[j].kind
            case Some(i) =>
              if items[j].kind == Fn && Settled(items, i) in {Impl, TraitKind, Class, Struct, Enum} then Method
              else items[j].kind
  {
  }

  // The innermost item around another: it begins no later and ends after the other begins,
  // and so does nothing between the two.
  lemma {:induction false} InnermostIs(items: seq<Item>, j: nat)
    requires Nested(items) && j < |items|
    ensures match Innermost(items, j, j)
            case None => forall i: nat :: i < j ==> items[i].end <= items[j].start
            case Some(p) =>
              && p < j && items[p].start <= items[j].start < items[p].end && items[j].end <= items[p].end
              && forall i: nat :: p < i < j ==> items[i].end <= items[j].start
  {
    var p := Innermost(items, j, j);
    assert forall i: nat :: i < j ==> (Encloses(items, i, j) <==> items[j].start < items[i].end);
  }

  // --- A symbol's full name ---

  // Every item around item `j` among the first `below`, outermost first.
  function Around(items: seq<Item>, j: nat, below: nat): seq<nat>
    requires below <= j < |items|
  {
    if below == 0 then []
    else Around(items, j, below - 1) + if Encloses(items, below - 1, j) then [below - 1] else []
  }

  function Joined(items: seq<Item>, path: seq<nat>, separator: string): string
    requires forall k :: 0 <= k < |path| ==> path[k] < |items|
  {
    if path == [] then ""
    else if |path| == 1 then items[path[0]].name
    else Joined(items, path[..|path| - 1], separator) + separator + items[path[|path| - 1]].name
  }

  lemma {:induction false} AroundIsInRange(items: seq<Item>, j: nat, below: nat)
    requires below <= j < |items|
    ensures forall k :: 0 <= k < |Around(items, j, below)| ==> Around(items, j, below)[k] < below
  {
    if below > 0 {
      AroundIsInRange(items, j, below - 1);
    }
  }

  // What lies around an item is what lies around the innermost of them, and that one.
  lemma {:induction false} AroundGrows(items: seq<Item>, j: nat, p: nat, below: nat)
    requires Nested(items) && j < |items| && p < below <= j
    requires Innermost(items, j, j) == Some(p)
    ensures Around(items, j, below) == Around(items, p, p) + [p]
  {
    if below == p + 1 {
      AroundAgrees(items, j, p, p);
    } else {
      AroundGrows(items, j, p, below - 1);
    }
  }

  lemma {:induction false} AroundAgrees(items: seq<Item>, j: nat, p: nat, below: nat)
    requires Nested(items) && below <= p < j < |items| && Encloses(items, p, j)
    ensures Around(items, j, below) == Around(items, p, below)
  {
    if below > 0 {
      AroundAgrees(items, j, p, below - 1);
      if Encloses(items, below - 1, p) {
        Outward(items, below - 1, p, j);
      }
    }
  }

  lemma {:induction false} NothingAround(items: seq<Item>, j: nat, below: nat)
    requires below <= j < |items| && Innermost(items, j, j) == None
    ensures Around(items, j, below) == []
  {
    if below > 0 {
      NothingAround(items, j, below - 1);
    }
  }

  // Unless the adapter says otherwise, a symbol is called after everything around it.
  lemma {:induction false} NamesFollowTheNesting(items: seq<Item>, separator: string, refine: Refine, j: nat)
    requires Nested(items) && j < |items|
    requires forall i, symbol :: 0 <= i <= j ==> refine(items[i], symbol) == symbol
    ensures (forall k :: 0 <= k < |Around(items, j, j)| ==> Around(items, j, j)[k] < j)
    ensures Made(items, separator, refine, j).qualified == Joined(items, Around(items, j, j) + [j], separator)
    ensures Made(items, separator, refine, j).parent
         == if Around(items, j, j) == [] then None else Some(Joined(items, Around(items, j, j), separator))
  {
    AroundIsInRange(items, j, j);
    match Innermost(items, j, j)
    case None => NothingAround(items, j, j);
    case Some(p) =>
      AroundIsInRange(items, p, p);
      NamesFollowTheNesting(items, separator, refine, p);
      AroundGrows(items, j, p, j);
      var path := Around(items, p, p) + [p];
      assert (path + [j])[..|path|] == path;
  }

  // --- The pass with a stack ---

  // The frame of an item that is open.
  function FrameOf(items: seq<Item>, separator: string, refine: Refine, j: nat): Frame
    requires j < |items|
  {
    if items[j].noise then Frame(items[j].end, items[j].kind, items[j].name, true)
    else Frame(items[j].end, Settled(items, j), Made(items, separator, refine, j).qualified, Closed(items, j))
  }

  // The items `at` are those of the first `n` that are not hidden and not over by
  // `position`, perhaps with some that are over; each lies in the one before.
  ghost predicate Open(items: seq<Item>, at: seq<nat>, n: nat, position: nat)
    requires n <= |items|
  {
    && (forall k :: 0 <= k < |at| ==> at[k] < n && !Hidden(items, at[k]))
    && (forall k, l :: 0 <= k < l < |at| ==> at[k] < at[l] && items[at[l]].end <= items[at[k]].end)
    && (forall k :: 0 <= k < |at| - 1 ==> !Closed(items, at[k]))
    && (forall i: nat :: i < n && !Hidden(items, i) && items[i].end > position ==> i in at)
  }

  ghost predicate Stack(items: seq<Item>, separator: string, refine: Refine,
                        open: seq<Frame>, at: seq<nat>, n: nat, position: nat)
    requires n <= |items|
  {
    && Open(items, at, n, position)
    && |open| == |at|
    && (forall k :: 0 <= k < |at| ==> open[k] == FrameOf(items, separator, refine, at[k]))
  }

  // The item on top is the innermost around the next one.
  lemma {:induction false} TopIsInnermost(items: seq<Item>, at: seq<nat>, n: nat)
    requires Nested(items) && n < |items| && Open(items, at, n, items[n].start) && !Hidden(items, n)
    requires forall k :: 0 <= k < |at| ==> items[at[k]].end > items[n].start
    ensures Innermost(items, n, n) == if at == [] then None else Some(at[|at| - 1])
    ensures at != [] ==> !Closed(items, at[|at| - 1])
  {
    hide Settled;
    var parent := Innermost(items, n, n);
    if at != [] {
      assert Encloses(items, at[|at| - 1], n);
      SeenOutward(items, at[|at| - 1], n);
    }
    if parent.Some? {
      SeenOutward(items, parent.value, n);
      hide Hidden, Closed, Nested;
      var k :| 0 <= k < |at| && at[k] == parent.value;
      assert at[k] <= at[|at| - 1];
    }
  }

  // What hides the next item is on top.
  lemma {:induction false} TopHides(items: seq<Item>, at: seq<nat>, n: nat)
    requires Nested(items) && n < |items| && Open(items, at, n, items[n].start) && Hidden(items, n)
    ensures at != [] && Closed(items, at[|at| - 1])
  {
    var i := HiddenByTheSeen(items, n);
    hide Hidden, Closed, Nested;
    assert i in at;
  }

  // The top frame is closed if its item is.
  lemma {:induction false} TopIsClosed(items: seq<Item>, separator: string, refine: Refine,
                                       open: seq<Frame>, at: seq<nat>, n: nat, position: nat)
    requires n <= |items| && Stack(items, separator, refine, open, at, n, position)
    ensures Open(items, at, n, position) && |open| == |at|
    ensures open != [] ==> at[|at| - 1] < n && (open[|open| - 1].closed <==> Closed(items, at[|at| - 1]))
  {
    hide Made, Settled, Hidden;
  }

  // What the top of the stack says about the next item.
  lemma {:induction false} TopDecides(items: seq<Item>, separator: string, refine: Refine,
                                      open: seq<Frame>, at: seq<nat>, n: nat)
    requires Nested(items) && n < |items| && Stack(items, separator, refine, open, at, n, items[n].start)
    requires forall k :: 0 <= k < |at| ==> items[at[k]].end > items[n].start
    ensures Hidden(items, n) <==> open != [] && open[|open| - 1].closed
    ensures !Hidden(items, n) ==> Innermost(items, n, n) == if at == [] then None else Some(at[|at| - 1])
  {
    hide Made, Settled, Hidden, Nested, Open, Stack, Closed, Innermost;
    TopIsClosed(items, separator, refine, open, at, n, items[n].start);
    if Hidden(items, n) {
      TopHides(items, at, n);
    } else {
      TopIsInnermost(items, at, n);
    }
  }

  lemma {:induction false} Pushed(items: seq<Item>, separator: string, refine: Refine, open: seq<Frame>, at: seq<nat>,
          n: nat)
    requires Nested(items) && n < |items| && Stack(items, separator, refine, open, at, n, items[n].start)
    requires forall k :: 0 <= k < |at| ==> items[at[k]].end > items[n].start
    requires !Hidden(items, n)
    ensures Stack(items, separator, refine, open + [FrameOf(items, separator, refine, n)], at + [n], n + 1,
        items[n].start)
  {
    hide Made, Settled, FrameOf;
    var more := at + [n];
    forall k | 0 <= k < |at|
      ensures Encloses(items, at[k], n) && !Closed(items, at[k])
    {
    }
    forall i: nat | i < n + 1 && !Hidden(items, i) && items[i].end > items[n].start
      ensures i in more
    {
      assert i == n ==> more[|at|] == n;
      assert i < n ==> i in at;
    }
  }

  lemma {:induction false} Skipped(items: seq<Item>, separator: string, refine: Refine, open: seq<Frame>,
          at: seq<nat>, n: nat)
    requires n < |items| && Stack(items, separator, refine, open, at, n, items[n].start) && Hidden(items, n)
    ensures Stack(items, separator, refine, open, at, n + 1, items[n].start)
  {
    hide Made, Settled, FrameOf, Closed, Hidden;
  }

  lemma {:induction false} SymbolsGrow(items: seq<Item>, separator: string, refine: Refine, m: nat, n: nat)
    requires m <= n <= |items|
    ensures Symbols(items, separator, refine, m) <= Symbols(items, separator, refine, n)
  {
    if m < n {
      SymbolsGrow(items, separator, refine, m, n - 1);
    }
  }

  // The symbol of an item whose parent is called `above`.
  function Told(items: seq<Item>, separator: string, refine: Refine, j: nat, above: Option<string>): Symbol
    requires j < |items|
  {
    refine(items[j], Symbol(Settled(items, j), items[j].name, Qualified(above, separator, items[j].name), above))
  }

  // The frame on top is the innermost item's.
  lemma {:induction false} TopFrame(items: seq<Item>, separator: string, refine: Refine, open: seq<Frame>,
          at: seq<nat>, n: nat)
    requires n < |items| && Stack(items, separator, refine, open, at, n, items[n].start)
    requires Innermost(items, n, n) == if at == [] then None else Some(at[|at| - 1])
    requires open != [] ==> !open[|open| - 1].closed
    ensures Settled(items, n) == SettleKind(items[n].kind, if open == [] then None else Some(open[|open| - 1].kind))
    ensures Made(items, separator, refine, n)
         == Told(items, separator, refine, n, if open == [] then None else Some(open[|open| - 1].qualified))
  {
    hide Hidden;
    if open != [] {
      assert open[|open| - 1] == FrameOf(items, separator, refine, at[|at| - 1]);
    }
  }

  lemma {:induction false} EmptyStack(items: seq<Item>, separator: string, refine: Refine)
    ensures Stack(items, separator, refine, [], [], 0, 0)
  {
  }

  // The frames left when everything over by `position` is popped.
  method Close(items: seq<Item>, separator: string, refine: Refine, open: seq<Frame>, ghost at: seq<nat>, n: nat,
               ghost position: nat)
    returns (left: seq<Frame>, ghost leftAt: seq<nat>)
    requires n < |items| && position <= items[n].start && Stack(items, separator, refine, open, at, n, position)
    ensures Stack(items, separator, refine, left, leftAt, n, items[n].start)
    ensures forall k :: 0 <= k < |leftAt| ==> items[leftAt[k]].end > items[n].start
    ensures left <= open && (left != [] ==> left[|left| - 1].end > items[n].start)
  {
    hide Made, Settled, Closed, Hidden, Open;
    EndsMatch(items, separator, refine, open, at, n, position);
    left := open;
    while left != [] && left[|left| - 1].end <= items[n].start
      invariant left <= open
      invariant forall k :: |left| <= k < |open| ==> open[k].end <= items[n].start
      decreases |left|
    {
      left := left[..|left| - 1];
    }
    leftAt := at[..|left|];
    StillOpen(items, at, |left|, n, position);
    if left != [] {
      LastIsLeast(items, leftAt, n, items[n].start);
    }
  }

  lemma {:induction false} EndsMatch(items: seq<Item>, separator: string, refine: Refine, open: seq<Frame>,
          at: seq<nat>,
                                     n: nat, position: nat)
    requires n <= |items| && Stack(items, separator, refine, open, at, n, position)
    ensures |open| == |at| && Open(items, at, n, position)
    ensures forall k :: 0 <= k < |at| ==> at[k] < n && open[k].end == items[at[k]].end
  {
    hide Made, Settled, Closed, Hidden;
  }

  // The top of the stack ends first.
  lemma {:induction false} LastIsLeast(items: seq<Item>, at: seq<nat>, n: nat, position: nat)
    requires n <= |items| && Open(items, at, n, position) && at != []
    ensures forall k :: 0 <= k < |at| ==> at[k] < n && items[at[|at| - 1]].end <= items[at[k]].end
  {
    hide Hidden, Closed;
  }

  // Dropping what is over from the top leaves the rest as it was.
  lemma {:induction false} StillOpen(items: seq<Item>, at: seq<nat>, left: nat, n: nat, position: nat)
    requires n < |items| && position <= items[n].start && Open(items, at, n, position) && left <= |at|
    requires forall k :: left <= k < |at| ==> items[at[k]].end <= items[n].start
    ensures Open(items, at[..left], n, items[n].start)
  {
    hide Hidden, Closed;
    forall i: nat | i < n && !Hidden(items, i) && items[i].end > items[n].start
      ensures i in at[..left]
    {
      var k :| 0 <= k < |at| && at[k] == i;
      assert at[..left][k] == i;
    }
  }

  // One captured item: what it makes, if anything, and what is open after it.
  method Visit(items: seq<Item>, separator: string, refine: Refine, open: seq<Frame>, ghost at: seq<nat>, n: nat,
               ghost position: nat)
    returns (next: seq<Frame>, ghost nextAt: seq<nat>, made: Option<Symbol>)
    requires Nested(items) && n < |items| && position <= items[n].start
    requires Stack(items, separator, refine, open, at, n, position)
    ensures Stack(items, separator, refine, next, nextAt, n + 1, items[n].start)
    ensures made == if Counts(items, n) then Some(Made(items, separator, refine, n)) else None
  {
    var item := items[n];
    next, nextAt := Close(items, separator, refine, open, at, n, position);
    TopDecides(items, separator, refine, next, nextAt, n);
    if next != [] && next[|next| - 1].closed {
      Skipped(items, separator, refine, next, nextAt, n);
      return next, nextAt, None;
    }
    Pushed(items, separator, refine, next, nextAt, n);
    TopFrame(items, separator, refine, next, nextAt, n);
    hide Stack, Hidden, Nested, Made, Settled, Innermost;
    if item.noise {
      return next + [Frame(item.end, item.kind, item.name, true)], nextAt + [n], None;
    }
    var parent := if next == [] then None else Some(next[|next| - 1]);
    var kind := SettleKind(item.kind, if parent.Some? then Some(parent.value.kind) else None);
    var above := if parent.Some? then Some(parent.value.qualified) else None;
    var symbol := refine(item, Symbol(kind, item.name, Qualified(above, separator, item.name), above));
    return next + [Frame(item.end, kind, symbol.qualified, IsOpaque(kind))], nextAt + [n], Some(symbol);
  }

  // The symbols of a file are what nesting says they are, up to the first four hundred.
  method Nest(items: seq<Item>, separator: string, refine: Refine) returns (symbols: seq<Symbol>)
    requires Nested(items)
    ensures symbols == First(Symbols(items, separator, refine, |items|), 400)
  {
    hide Stack, Hidden, Made, Settled, Innermost, Closed, FrameOf, Counts, Encloses;
    var open: seq<Frame> := [];
    ghost var at: seq<nat>, position: nat := [], 0;
    symbols := [];
    EmptyStack(items, separator, refine);
    for n := 0 to |items|
      invariant n > 0 ==> position == items[n - 1].start
      invariant n == 0 ==> position == 0
      invariant Stack(items, separator, refine, open, at, n, position)
      invariant symbols == Symbols(items, separator, refine, n) && |symbols| < MAX_SYMBOLS_PER_FILE
    {
      var made;
      open, at, made := Visit(items, separator, refine, open, at, n, position);
      position := items[n].start;
      if made.Some? {
        symbols := symbols + [made.value];
        if |symbols| == MAX_SYMBOLS_PER_FILE {
          SymbolsGrow(items, separator, refine, n + 1, |items|);
          return;
        }
      }
    }
  }
}
