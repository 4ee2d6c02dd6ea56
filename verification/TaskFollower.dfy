// The task on screen: the shell follows its log and pushes what changed, the web view
// folds that into what it holds (rust/crates/oga-client/src/bridge.rs and
// web/src/state/taskDetail/state.ts). Events are named by their ids, and a task's log lists
// them in increasing order. Messages may be late, repeated, reordered or lost.
module TaskFollower {
  import opened Basics
  import opened Logs

  // What one push to the web view carries. `moved` is whether the task row came with it.
  datatype Delta = Delta(from: int, cursor: int, moved: bool, events: Ids)

  // The last events of the log, with the id of the oldest (0 for none) and the cursor.
  datatype Snapshot = Snapshot(events: Ids, cursor: int, oldest: int)

  datatype Pull = Pull(from: int, cursor: int, events: Ids)

  // What the web view holds. `open` is whether it has the task at all.
  datatype Reader = Reader(open: bool, held: Ids, cursor: int)

  datatype World = World(
    log: Ids,
    watched: Option<int>,      // the shell's cursor on this task, while it follows it
    asked: multiset<Snapshot>, // what watches in flight have read and not stored yet
    pull: Option<Pull>,        // the read in flight
    deltas: set<Delta>,        // everything ever pushed
    snapshots: set<Snapshot>,  // every answer that a watch stored and gave
    reader: Reader)

  datatype Outcome = Ignored | Applied | Gap

  // --- The web view's fold ---

  function Insert(sorted: Ids, id: int): Ids {
    if sorted == [] then [id]
    else if id == sorted[0] then sorted
    else if id < sorted[0] then [id] + sorted
    else [sorted[0]] + Insert(sorted[1..], id)
  }

  // Each id once, in order.
  function Collated(sorted: Ids, arriving: Ids): Ids {
    if arriving == [] then sorted else Insert(Collated(sorted, arriving[..|arriving| - 1]), arriving[|arriving| - 1])
  }

  predicate InOrder(ids: Ids) {
    forall i :: 0 < i < |ids| ==> ids[i - 1] < ids[i]
  }

  function Merge(held: Ids, arriving: Ids): Ids {
    if arriving == [] then held
    else if InOrder(arriving) && (held == [] || held[|held| - 1] < arriving[0]) then held + arriving
    else Collated(Collated([], held), arriving)
  }

  function ApplyDelta(reader: Reader, delta: Delta): (Reader, Outcome) {
    if !reader.open then (reader, Ignored)
    else if delta.from > reader.cursor then (reader, Gap)
    else if delta.cursor <= reader.cursor && !delta.moved then (reader, Ignored)
    else (reader.(held := Merge(reader.held, delta.events), cursor := Max(reader.cursor, delta.cursor)), Applied)
  }

  // Whether a snapshot reaches back to what is held.
  predicate Joins(reader: Reader, snapshot: Snapshot) {
    reader.held != [] && snapshot.oldest <= reader.held[|reader.held| - 1] + 1
  }

  function Adopt(reader: Reader, snapshot: Snapshot): Reader {
    var behind := snapshot.cursor < reader.cursor;
    var held := if reader.held != [] && !Joins(reader, snapshot) && !behind then [] else reader.held;
    Reader(true, Merge(held, snapshot.events), Max(reader.cursor, snapshot.cursor))
  }

  // A page read from the broker when the shell cannot be asked: it is merged as it comes.
  function Absorb(reader: Reader, page: Snapshot): Reader {
    reader.(held := Merge(reader.held, page.events), cursor := Max(reader.cursor, page.cursor))
  }

  // Two ways to fold a push: as the web view does, or as the push's own description asks,
  // which is to ask for the task again whenever the cursor held is another than `from`.
  datatype Fold = AsWritten | OnlyEqual

  function Folded(fold: Fold, reader: Reader, delta: Delta): (Reader, Outcome) {
    if fold.OnlyEqual? && reader.open && delta.from != reader.cursor then (reader, Gap) else ApplyDelta(reader, delta)
  }

  // --- The shell and the broker ---

  datatype Step =
    | Append(id: int)
    | Ask(count: nat)
    | Store(answer: Snapshot)
    | AskFails(answer: Snapshot)
    | Unwatch
    | StartPull
    | ReadPage(limit: nat, cursor: int)
    | PullFails
    | FinishPull(moved: bool)
    | TakeDelta(delta: Delta)
    | TakeSnapshot(snapshot: Snapshot)

  function LastOf(log: Ids, count: nat): Ids {
    if |log| <= count then log else log[|log| - count..]
  }

  function SnapshotOf(log: Ids, count: nat): Snapshot {
    var events := LastOf(log, count);
    if events == [] then Snapshot([], 0, 0) else Snapshot(events, Head(log), events[0])
  }

  predicate Enabled(w: World, step: Step) {
    match step
    case Append(id) => id > Head(w.log) && id > 0
    // A watch reads the log first, and stores its cursor later: other steps come between.
    case Ask(count) => count > 0
    case Store(answer) => answer in w.asked
    case AskFails(answer) => answer in w.asked
    case Unwatch => true
    case StartPull => w.watched.Some? && w.pull.None?
    // A page ends where the broker says: past every event it carries and none it does not.
    case ReadPage(limit, cursor) =>
      && w.pull.Some?
      && w.pull.value.cursor <= cursor <= Max(w.pull.value.cursor, Head(w.log))
      && |Between(w.log, w.pull.value.cursor, cursor)| <= limit
    case PullFails => w.pull.Some?
    case FinishPull(_) => w.pull.Some?
    case TakeDelta(delta) => delta in w.deltas
    // A snapshot older than what is held is dropped before it is adopted.
    case TakeSnapshot(snapshot) => snapshot in w.snapshots && !(snapshot.cursor < w.reader.cursor)
  }

  function Apply(fold: Fold, w: World, step: Step): World
    requires Enabled(w, step)
  {
    match step
    case Append(id) => w.(log := w.log + [id])
    case Ask(count) => w.(asked := w.asked + multiset{SnapshotOf(w.log, count)})
    case Store(answer) =>
      w.(watched := Some(answer.cursor), asked := w.asked - multiset{answer}, snapshots := w.snapshots + {answer})
    case AskFails(answer) => w.(asked := w.asked - multiset{answer})
    case Unwatch => w.(watched := None)
    case StartPull => w.(pull := Some(Pull(w.watched.value, w.watched.value, [])))
    case ReadPage(limit, cursor) =>
      var pull := w.pull.value;
      w.(pull := Some(Pull(pull.from, cursor, pull.events + Between(w.log, pull.cursor, cursor))))
    case PullFails => w.(pull := None)
    // The answer counts only if the shell still stands where the read began.
    case FinishPull(moved) =>
      var pull := w.pull.value;
      if w.watched != Some(pull.from) then w.(pull := None)
      else
        var told := w.(pull := None, watched := Some(pull.cursor));
        if pull.events == [] && !moved then told
        else told.(deltas := w.deltas + {Delta(pull.from, pull.cursor, moved, pull.events)})
    case TakeDelta(delta) => w.(reader := Folded(fold, w.reader, delta).0)
    case TakeSnapshot(snapshot) => w.(reader := Adopt(w.reader, snapshot))
  }

  const START := World([], None, multiset{}, None, {}, {}, Reader(false, [], 0))

  // How a watch and a read come to nothing: whoever asked can fail, which takes back that one
  // question, and a task can be left at any time; a read ends with its page thrown away when
  // it failed or the shell stands elsewhere by then, and goes out as a push otherwise when it
  // brought events or a task row.
  lemma {:induction false} WhatIsForgotten(fold: Fold, w: World, step: Step)
    ensures Enabled(w, Unwatch) && Apply(fold, w, Unwatch) == w.(watched := None)
    ensures step.AskFails? ==>
              && (Enabled(w, step) <==> w.asked[step.answer] > 0)
              && (Enabled(w, step) ==>
                    Apply(fold, w, step) == w.(asked := w.asked[step.answer := w.asked[step.answer] - 1]))
    ensures step == PullFails && Enabled(w, step) ==> Apply(fold, w, step) == w.(pull := None)
    ensures step.FinishPull? && Enabled(w, step) ==>
              var t := Apply(fold, w, step);
              var pull := w.pull.value;
              var stands := w.watched == Some(pull.from);
              var pushed := stands && (step.moved || |pull.events| > 0);
              && t == w.(pull := t.pull, watched := t.watched, deltas := t.deltas) && t.pull == None
              && t.watched == (if stands then Some(pull.cursor) else w.watched)
              && t.deltas == (if pushed then w.deltas + {Delta(pull.from, pull.cursor, step.moved, pull.events)}
                              else w.deltas)
  {
  }

  // --- What is held ---

  // Exactly the log from some start up to the cursor: no gap, nothing twice.
  ghost predicate Window(log: Ids, held: Ids, cursor: int) {
    exists start :: start <= cursor && held == Between(log, start, cursor)
  }

  lemma {:induction false} InsertKeepsOrder(sorted: Ids, id: int)
    requires Increasing(sorted)
    ensures Increasing(Insert(sorted, id))
    ensures forall other :: other in Insert(sorted, id) <==> other == id || other in sorted
  {
    hide Increasing;
    if sorted == [] {
      IncreasingPrepends(id, []);
      assert [id] + [] == [id];
    } else {
      var first, rest := sorted[0], sorted[1..];
      assert sorted == [first] + rest;
      FirstIsLeast(sorted);
      if id < first {
        IncreasingPrepends(id, sorted);
      } else if id > first {
        InsertKeepsOrder(rest, id);
        IncreasingPrepends(first, Insert(rest, id));
      }
    }
  }

  lemma {:induction false} IncreasingPrepends(id: int, ids: Ids)
    requires ids == [] || (Increasing(ids) && forall other :: other in ids ==> id < other)
    ensures Increasing([id] + ids)
  {
    assert forall i :: 0 <= i < |ids| ==> ids[i] in ids;
  }

  lemma {:induction false} FirstIsLeast(ids: Ids)
    requires ids != [] && Increasing(ids)
    ensures Increasing(ids[1..]) && forall other :: other in ids[1..] ==> ids[0] < other
  {
  }

  lemma {:induction false} CollatedHas(sorted: Ids, arriving: Ids)
    requires Increasing(sorted)
    ensures Increasing(Collated(sorted, arriving))
    ensures forall id :: id in Collated(sorted, arriving) <==> id in sorted || id in arriving
  {
    if arriving != [] {
      var init, last := arriving[..|arriving| - 1], arriving[|arriving| - 1];
      CollatedHas(sorted, init);
      InsertKeepsOrder(Collated(sorted, init), last);
      assert arriving == init + [last];
    }
  }

  // A merge of two increasing lists holds each element of either once, in order.
  lemma {:induction false} MergeHas(held: Ids, arriving: Ids)
    requires Increasing(held) && Increasing(arriving)
    ensures Increasing(Merge(held, arriving))
    ensures forall id :: id in Merge(held, arriving) <==> id in held || id in arriving
  {
    CollatedHas([], held);
    CollatedHas(Collated([], held), arriving);
  }

  // In any order they come, nothing of either list is lost and nothing added.
  lemma {:induction false} MergeKeepsAll(held: Ids, arriving: Ids)
    ensures forall id :: id in Merge(held, arriving) <==> id in held || id in arriving
    ensures Increasing(held) ==> Increasing(Merge(held, arriving))
  {
    if Increasing(held) && arriving != [] && InOrder(arriving) && (held == [] || held[|held| - 1] < arriving[0]) {
      AppendedInOrder(held, arriving);
    }
    hide InOrder, Insert, Collated, Increasing;
    NoneIncreases();
    CollatedHas([], held);
    CollatedHas(Collated([], held), arriving);
    NothingCollated();
  }

  lemma {:induction false} AppendedInOrder(held: Ids, arriving: Ids)
    requires Increasing(held) && arriving != [] && InOrder(arriving)
    requires held == [] || held[|held| - 1] < arriving[0]
    ensures Increasing(held + arriving)
    decreases |arriving|
  {
    var init, last := arriving[..|arriving| - 1], arriving[|arriving| - 1];
    var before := held + init;
    if init != [] {
      AppendedInOrder(held, init);
      assert init[|init| - 1] < last;
    } else {
      assert before == held;
    }
    assert before != [] ==> before[|before| - 1] < last;
    assert forall i :: 0 <= i < |before| ==> before[i] <= before[|before| - 1];
    IncreasingAdds(before, last);
    assert held + arriving == before + [last];
  }

  lemma {:induction false} NoneIncreases()
    ensures Increasing([])
  {
  }

  lemma {:induction false} NothingCollated()
    ensures Collated([], []) == []
  {
  }

  // What becomes of a push: it is folded exactly when it starts no further than the cursor
  // and brings something, asks for the task again exactly when it starts further, and
  // changes nothing unless it is folded.
  lemma {:induction false} WhatAPushDoes(reader: Reader, delta: Delta)
    ensures var (after, outcome) := ApplyDelta(reader, delta);
            && (outcome == Applied <==>
                  reader.open && delta.from <= reader.cursor && (reader.cursor < delta.cursor || delta.moved))
            && (outcome == Gap <==> reader.open && reader.cursor < delta.from)
            && (outcome != Applied ==> after == reader)
            && (outcome == Applied ==>
                  && after.open
                  && after.cursor == (if reader.cursor < delta.cursor then delta.cursor else reader.cursor)
                  && forall id :: id in after.held <==> id in reader.held || id in delta.events)
  {
    hide Merge;
    MergeKeepsAll(reader.held, delta.events);
  }

  // What becomes of a snapshot: the task is open, at the larger cursor, with what was held
  // besides if the snapshot is older or reaches back to it, and else with the snapshot alone.
  lemma {:induction false} WhatASnapshotDoes(reader: Reader, snapshot: Snapshot)
    ensures var after := Adopt(reader, snapshot);
            && after.open
            && after.cursor == (if reader.cursor < snapshot.cursor then snapshot.cursor else reader.cursor)
            && forall id :: id in after.held <==>
                 || id in snapshot.events
                 || (id in reader.held &&
                     (snapshot.cursor < reader.cursor || snapshot.oldest <= reader.held[|reader.held| - 1] + 1))
  {
    hide Merge;
    MergeKeepsAll(reader.held, snapshot.events);
    MergeKeepsAll([], snapshot.events);
  }

  // What becomes of a page: everything in it is held besides what was, at the larger cursor.
  lemma {:induction false} WhatAPageDoes(reader: Reader, page: Snapshot)
    ensures var after := Absorb(reader, page);
            && after.open == reader.open
            && after.cursor == (if reader.cursor < page.cursor then page.cursor else reader.cursor)
            && forall id :: id in after.held <==> id in reader.held || id in page.events
  {
    hide Merge;
    MergeKeepsAll(reader.held, page.events);
  }

  // Two stretches of the log that touch or overlap merge into one.
  lemma {:induction false} StretchesMerge(log: Ids, a: int, b: int, c: int, d: int)
    requires Increasing(log) && a <= b && c <= d && c <= b && a <= d
    ensures Merge(Between(log, a, b), Between(log, c, d)) == Between(log, if a < c then a else c, Max(b, d))
  {
    var start, end := if a < c then a else c, Max(b, d);
    BetweenHas(log, a, b);
    BetweenHas(log, c, d);
    BetweenHas(log, start, end);
    MergeHas(Between(log, a, b), Between(log, c, d));
    SameElements(Merge(Between(log, a, b), Between(log, c, d)), Between(log, start, end));
  }

  // A delta that carries exactly the events between its two cursors.
  ghost predicate Genuine(log: Ids, delta: Delta) {
    delta.from <= delta.cursor && delta.events == Between(log, delta.from, delta.cursor)
  }

  // Whether a delta would be merged although it ends before what is held begins.
  predicate Belated(reader: Reader, delta: Delta) {
    && reader.open && delta.moved && delta.events != [] && delta.cursor < reader.cursor
    && (reader.held == [] || delta.events[|delta.events| - 1] < reader.held[0])
  }

  // Whether the log has an event after a delta's last one and before what is held.
  ghost predicate LeavesOut(log: Ids, reader: Reader, delta: Delta)
    requires delta.events != []
  {
    exists id :: id in log && delta.events[|delta.events| - 1] < id &&
                 if reader.held == [] then id <= reader.cursor else id < reader.held[0]
  }

  // Folding a genuine delta keeps the window exact, unless the delta is a belated one that
  // leaves an event of the log out: exactly then a hole opens.
  lemma {:induction false} DeltaKeepsWindowIff(log: Ids, reader: Reader, delta: Delta)
    requires Increasing(log) && Genuine(log, delta) && Window(log, reader.held, reader.cursor)
    ensures var after := ApplyDelta(reader, delta).0;
            Window(log, after.held, after.cursor) <==> !(Belated(reader, delta) && LeavesOut(log, reader, delta))
  {
    var start :| start <= reader.cursor && reader.held == Between(log, start, reader.cursor);
    var after := ApplyDelta(reader, delta).0;
    BetweenHas(log, start, reader.cursor);
    BetweenHas(log, delta.from, delta.cursor);
    if ApplyDelta(reader, delta).1.Applied? {
      MergeHas(reader.held, delta.events);
      if delta.events == [] {
        EmptyDelta(log, reader, delta, start);
      } else if !Belated(reader, delta) {
        Overlapping(log, reader, delta, start);
      } else if LeavesOut(log, reader, delta) {
        HoleOpens(log, reader, delta);
      } else {
        NoHole(log, reader, delta, start);
      }
    }
  }

  lemma {:induction false} EmptyDelta(log: Ids, reader: Reader, delta: Delta, start: int)
    requires Increasing(log) && Genuine(log, delta) && delta.events == [] && delta.from <= reader.cursor
    requires start <= reader.cursor && reader.held == Between(log, start, reader.cursor)
    ensures Window(log, reader.held, Max(reader.cursor, delta.cursor))
  {
    if reader.cursor < delta.cursor {
      StretchesMerge(log, start, reader.cursor, Max(delta.from, start), delta.cursor);
      BetweenHas(log, delta.from, delta.cursor);
      BetweenHas(log, start, reader.cursor);
      BetweenHas(log, start, delta.cursor);
      SameElements(Between(log, start, delta.cursor), reader.held);
    }
  }

  lemma {:induction false} Overlapping(log: Ids, reader: Reader, delta: Delta, start: int)
    requires Increasing(log) && Genuine(log, delta) && delta.events != [] && delta.from <= reader.cursor
    requires start <= reader.cursor && reader.held == Between(log, start, reader.cursor)
    requires reader.open && (delta.cursor > reader.cursor || delta.moved) && !Belated(reader, delta)
    ensures Window(log, Merge(reader.held, delta.events), Max(reader.cursor, delta.cursor))
  {
    BetweenHas(log, start, reader.cursor);
    BetweenHas(log, delta.from, delta.cursor);
    assert delta.events[|delta.events| - 1] in delta.events;
    if reader.held != [] {
      assert reader.held[0] in reader.held;
      StretchesMerge(log, start, reader.cursor, delta.from, delta.cursor);
    } else {
      StretchesMerge(log, reader.cursor, reader.cursor, delta.from, delta.cursor);
      BetweenHas(log, reader.cursor, reader.cursor);
      SameElements(Between(log, reader.cursor, reader.cursor), reader.held);
    }
  }

  lemma {:induction false} HoleOpens(log: Ids, reader: Reader, delta: Delta)
    requires Increasing(log) && Genuine(log, delta) && Increasing(reader.held)
    requires Belated(reader, delta) && LeavesOut(log, reader, delta)
    ensures !Window(log, Merge(reader.held, delta.events), reader.cursor)
  {
    var held := Merge(reader.held, delta.events);
    var last := delta.events[|delta.events| - 1];
    var id :| id in log && last < id && if reader.held == [] then id <= reader.cursor else id < reader.held[0];
    BetweenHas(log, delta.from, delta.cursor);
    MergeHas(reader.held, delta.events);
    assert last in held && id !in held && (reader.held != [] ==> reader.held[0] in held);
    forall start | start <= reader.cursor
      ensures held != Between(log, start, reader.cursor)
    {
      BetweenHas(log, start, reader.cursor);
    }
  }

  lemma {:induction false} NoHole(log: Ids, reader: Reader, delta: Delta, start: int)
    requires Increasing(log) && Genuine(log, delta) && Belated(reader, delta) && !LeavesOut(log, reader, delta)
    requires start <= reader.cursor && reader.held == Between(log, start, reader.cursor)
    ensures Window(log, Merge(reader.held, delta.events), reader.cursor)
  {
    hide Merge, Between, InOrder;
    BetweenHas(log, start, reader.cursor);
    BetweenHas(log, delta.from, delta.cursor);
    BetweenHas(log, delta.from, reader.cursor);
    MergeHas(reader.held, delta.events);
    assert delta.events[|delta.events| - 1] in delta.events;
    forall id
      ensures id in Merge(reader.held, delta.events) <==> id in Between(log, delta.from, reader.cursor)
    {
      Covers(log, reader, delta, start, id);
    }
    SameElements(Merge(reader.held, delta.events), Between(log, delta.from, reader.cursor));
  }

  // Each event between the push's start and the reader's cursor is in one or the other.
  lemma {:induction false} Covers(log: Ids, reader: Reader, delta: Delta, start: int, id: int)
    requires Increasing(log) && Genuine(log, delta) && Belated(reader, delta) && !LeavesOut(log, reader, delta)
    requires start <= reader.cursor && reader.held == Between(log, start, reader.cursor)
    ensures id in reader.held || id in delta.events <==> id in Between(log, delta.from, reader.cursor)
  {
    hide Between;
    BetweenHas(log, start, reader.cursor);
    BetweenHas(log, delta.from, delta.cursor);
    BetweenHas(log, delta.from, reader.cursor);
    var last := delta.events[|delta.events| - 1];
    assert last in delta.events;
    assert reader.held != [] ==> reader.held[0] in reader.held;
    if id in log && last < id && reader.held != [] {
      assert reader.held[0] <= id;
    }
  }

  // --- Snapshots and pages ---

  ghost predicate Faithful(log: Ids, snapshot: Snapshot) {
    && 0 <= snapshot.cursor <= Head(log)
    && (snapshot.events == [] ==> snapshot.cursor == 0 && snapshot.oldest == 0)
    && (snapshot.events != [] ==>
          && snapshot.oldest == snapshot.events[0] <= snapshot.cursor
          && snapshot.events == Between(log, snapshot.oldest - 1, snapshot.cursor))
  }


  // In order, and nothing that the log does not have or the cursor has not passed.
  ghost predicate Held(log: Ids, reader: Reader) {
    Increasing(reader.held) && forall id :: id in reader.held ==> id in log && id <= reader.cursor
  }

  ghost predicate Inv(w: World) {
    && Increasing(w.log) && (forall id :: id in w.log ==> 0 < id)
    && (w.watched.Some? ==> 0 <= w.watched.value <= Head(w.log))
    && (w.pull.Some? ==>
          var pull := w.pull.value;
          && 0 <= pull.from <= pull.cursor <= Head(w.log)
          && pull.events == Between(w.log, pull.from, pull.cursor))
    && (forall delta :: delta in w.deltas ==> 0 <= delta.from && delta.cursor <= Head(w.log) && Genuine(w.log, delta))
    && (forall snapshot :: snapshot in w.snapshots || snapshot in w.asked ==> Faithful(w.log, snapshot))
    && 0 <= w.reader.cursor <= Head(w.log)
    && Held(w.log, w.reader)
  }

  ghost predicate Whole(w: World) {
    Window(w.log, w.reader.held, w.reader.cursor)
  }

  lemma {:induction false} AppendKeepsInv(w: World, id: int)
    requires Inv(w) && id > Head(w.log) && id > 0
    ensures Inv(w.(log := w.log + [id])) && (Whole(w) ==> Whole(w.(log := w.log + [id])))
  {
    hide Between, Window;
    var t := w.(log := w.log + [id]);
    IncreasingAdds(w.log, id);
    assert Head(t.log) == id;
    if w.pull.Some? {
      BetweenGrows(w.log, id, w.pull.value.from, w.pull.value.cursor);
    }
    forall delta | delta in t.deltas
      ensures Genuine(t.log, delta)
    {
      BetweenGrows(w.log, id, delta.from, delta.cursor);
    }
    forall snapshot | snapshot in t.snapshots || snapshot in t.asked
      ensures Faithful(t.log, snapshot)
    {
      BetweenGrows(w.log, id, snapshot.oldest - 1, snapshot.cursor);
    }
    if Whole(w) {
      WindowGrows(w.log, id, w.reader);
    }
  }

  lemma {:induction false} WindowGrows(log: Ids, id: int, reader: Reader)
    requires Window(log, reader.held, reader.cursor) && reader.cursor < id
    ensures Window(log + [id], reader.held, reader.cursor)
  {
    var start :| start <= reader.cursor && reader.held == Between(log, start, reader.cursor);
    BetweenGrows(log, id, start, reader.cursor);
  }

  lemma {:induction false} SnapshotIsFaithful(log: Ids, count: nat)
    requires Increasing(log) && (forall id :: id in log ==> 0 < id) && count > 0
    ensures Faithful(log, SnapshotOf(log, count)) && SnapshotOf(log, count).cursor == Head(log)
  {
    hide Between;
    var events := LastOf(log, count);
    if events != [] {
      assert events[0] in log && log[|log| - 1] in log;
      LastIsBetween(log, |log| - |events|);
    }
  }

  lemma {:induction false} LastIsBetween(log: Ids, k: nat)
    requires Increasing(log) && k < |log|
    ensures log[k..] == Between(log, log[k] - 1, Head(log))
  {
    var events := log[k..];
    BetweenHas(log, log[k] - 1, Head(log));
    hide Between;
    assert forall i :: 0 <= i < |events| ==> events[i] == log[k + i];
    forall id
      ensures id in events <==> id in log && log[k] - 1 < id <= Head(log)
    {
      if id in log {
        var i :| 0 <= i < |log| && log[i] == id;
        assert k <= i ==> events[i - k] == id;
      }
    }
    SameElements(events, Between(log, log[k] - 1, Head(log)));
  }

  lemma {:induction false} MergeNothing(ids: Ids)
    requires Increasing(ids)
    ensures Merge(ids, []) == ids && Merge([], ids) == ids
  {
  }

  // No event from the first one held up to where a snapshot begins is missing.
  ghost predicate HeldUpTo(log: Ids, held: Ids, to: int) {
    held != [] ==> forall id :: id in log && held[0] <= id < to ==> id in held
  }

  // Whatever is held, holes and all: a snapshot no older leaves an exact window if and only
  // if it starts over, or reaches back to the first event missing.
  lemma {:induction false} SnapshotRepairsIff(log: Ids, reader: Reader, snapshot: Snapshot)
    requires Increasing(log) && Held(log, reader) && Faithful(log, snapshot)
    requires 0 <= reader.cursor <= snapshot.cursor && forall id :: id in log ==> 0 < id
    ensures var after := Adopt(reader, snapshot);
            Window(log, after.held, after.cursor) <==>
            (Joins(reader, snapshot) ==> HeldUpTo(log, reader.held, snapshot.oldest))
  {
    hide Merge, Between, Window;
    HasAnElement(reader.held);
    var low := snapshot.oldest - 1;
    if snapshot.events == [] {
      MergeNothing(reader.held);
      IsWindow(log, -1, reader.cursor, reader.held);
    } else if Joins(reader, snapshot) {
      MergeIsWindowIff(log, reader, snapshot);
    } else {
      BetweenHas(log, low, snapshot.cursor);
      MergeNothing(snapshot.events);
      IsWindow(log, low, snapshot.cursor, snapshot.events);
    }
  }

  lemma {:induction false} IsWindow(log: Ids, start: int, cursor: int, held: Ids)
    requires Increasing(log) && Increasing(held) && start <= cursor
    requires forall id :: id in held <==> id in log && start < id <= cursor
    ensures Window(log, held, cursor)
  {
    BetweenHas(log, start, cursor);
    SameElements(held, Between(log, start, cursor));
  }

  // What a window is missing: nothing from its first event on.
  lemma {:induction false} WindowMisses(log: Ids, held: Ids, cursor: int)
    requires Increasing(log) && Window(log, held, cursor)
    ensures Increasing(held) && forall id :: id in held ==> id in log && id <= cursor
    ensures HeldUpTo(log, held, cursor + 1)
  {
    var start :| start <= cursor && held == Between(log, start, cursor);
    BetweenHas(log, start, cursor);
    HasAnElement(held);
  }

  lemma {:induction false} MergeIsWindowIff(log: Ids, reader: Reader, snapshot: Snapshot)
    requires Increasing(log) && Held(log, reader) && Faithful(log, snapshot) && snapshot.events != []
    requires reader.held != [] && reader.cursor <= snapshot.cursor
    ensures Window(log, Merge(reader.held, snapshot.events), snapshot.cursor) <==>
            HeldUpTo(log, reader.held, snapshot.oldest)
  {
    hide Merge, Between, Window;
    var held, low := Merge(reader.held, snapshot.events), snapshot.oldest - 1;
    BetweenHas(log, low, snapshot.cursor);
    MergeHas(reader.held, snapshot.events);
    HasAnElement(reader.held);
    HasAnElement(held);
    if HeldUpTo(log, reader.held, snapshot.oldest) {
      IsWindow(log, Min(reader.held[0] - 1, low), snapshot.cursor, held);
    }
    if Window(log, held, snapshot.cursor) {
      WindowMisses(log, held, snapshot.cursor);
    }
  }

  // A page merged without that check keeps an exact window if and only if no event lies
  // between the cursor held and the first of the page.
  lemma {:induction false} PageKeepsWindowIff(log: Ids, reader: Reader, page: Snapshot)
    requires Increasing(log) && Window(log, reader.held, reader.cursor) && Faithful(log, page)
    requires 0 <= reader.cursor <= page.cursor && forall id :: id in log ==> 0 < id
    ensures var after := Absorb(reader, page);
            Window(log, after.held, after.cursor) <==>
            reader.held == [] || forall id :: id in log ==> !(reader.cursor < id < page.oldest)
  {
    hide Merge, Between, Window;
    WindowMisses(log, reader.held, reader.cursor);
    BetweenHas(log, page.oldest - 1, page.cursor);
    HasAnElement(reader.held);
    if page.events == [] {
      MergeNothing(reader.held);
      IsWindow(log, -1, reader.cursor, reader.held);
    } else if reader.held == [] {
      MergeNothing(page.events);
      IsWindow(log, page.oldest - 1, page.cursor, page.events);
    } else {
      MergeIsWindowIff(log, reader, page);
    }
  }

  // --- Every run ---

  ghost predicate Runs(fold: Fold, from: World, steps: seq<Step>, to: World)
    decreases |steps|
  {
    if steps == [] then from == to
    else Enabled(from, steps[0]) && Runs(fold, Apply(fold, from, steps[0]), steps[1..], to)
  }

  // No push that a run folds is belated when it is folded: the reader can tell.
  ghost predicate NoneBelated(fold: Fold, from: World, steps: seq<Step>)
    decreases |steps|
  {
    steps != [] && Enabled(from, steps[0]) ==>
      && (steps[0].TakeDelta? ==> !Belated(from.reader, steps[0].delta))
      && NoneBelated(fold, Apply(fold, from, steps[0]), steps[1..])
  }

  lemma {:induction false} FoldKeepsHeld(fold: Fold, log: Ids, reader: Reader, delta: Delta)
    requires Increasing(log) && Held(log, reader) && Genuine(log, delta)
    ensures Held(log, Folded(fold, reader, delta).0)
    ensures reader.cursor <= Folded(fold, reader, delta).0.cursor <= Max(reader.cursor, delta.cursor)
  {
    hide Between, Merge;
    BetweenHas(log, delta.from, delta.cursor);
    MergeHas(reader.held, delta.events);
  }

  lemma {:induction false} AdoptKeepsHeld(log: Ids, reader: Reader, snapshot: Snapshot)
    requires Increasing(log) && Held(log, reader) && Faithful(log, snapshot)
    ensures Held(log, Adopt(reader, snapshot))
    ensures reader.cursor <= Adopt(reader, snapshot).cursor <= Max(reader.cursor, Head(log))
  {
    hide Between, Merge;
    BetweenHas(log, snapshot.oldest - 1, snapshot.cursor);
    MergeHas(reader.held, snapshot.events);
    MergeHas([], snapshot.events);
  }

  predicate OfAWatch(step: Step) {
    step.Ask? || step.Store? || step.AskFails?
  }

  lemma {:induction false} WatchKeepsInv(fold: Fold, w: World, step: Step)
    requires Inv(w) && Enabled(w, step) && OfAWatch(step)
    ensures Inv(Apply(fold, w, step))
  {
    hide Between, Held, Genuine, Increasing, SnapshotOf, Faithful;
    var t := Apply(fold, w, step);
    assert forall answer :: answer in t.asked ==>
        answer in w.asked || (step.Ask? && answer == SnapshotOf(w.log, step.count));
    if step.Ask? {
      SnapshotIsFaithful(w.log, step.count);
    } else if step.Store? {
      CursorFits(w.log, step.answer);
    }
  }

  lemma {:induction false} CursorFits(log: Ids, snapshot: Snapshot)
    requires Faithful(log, snapshot)
    ensures 0 <= snapshot.cursor <= Head(log)
  {
  }

  lemma {:induction false} StepKeepsInv(fold: Fold, w: World, step: Step)
    requires Inv(w) && Enabled(w, step)
    ensures Inv(Apply(fold, w, step))
  {
    hide Between, Merge, Held, Faithful, LastOf, Folded, Adopt;
    match step {
      case Append(id) => AppendKeepsInv(w, id);
      case Ask(_) => WatchKeepsInv(fold, w, step);
      case Store(_) => WatchKeepsInv(fold, w, step);
      case AskFails(_) => WatchKeepsInv(fold, w, step);
      case StartPull => NothingBetween(w.log, w.watched.value);
      case ReadPage(limit, cursor) => StretchesJoin(w.log, w.pull.value.from, w.pull.value.cursor, cursor);
      case TakeDelta(delta) => FoldKeepsHeld(fold, w.log, w.reader, delta);
      case TakeSnapshot(snapshot) => AdoptKeepsHeld(w.log, w.reader, snapshot);
      case Unwatch =>
      case PullFails =>
      case FinishPull(_) =>
    }
  }

  lemma {:induction false} NothingBetween(log: Ids, at: int)
    requires Increasing(log)
    ensures Between(log, at, at) == []
  {
    BetweenHas(log, at, at);
    SameElements(Between(log, at, at), []);
  }

  // A window stays whole when no belated push is folded, or when none starts elsewhere than
  // at the cursor.
  lemma {:induction false} StepKeepsWhole(fold: Fold, w: World, step: Step)
    requires Inv(w) && Whole(w) && Enabled(w, step)
    requires fold.OnlyEqual? || (step.TakeDelta? ==> !Belated(w.reader, step.delta))
    ensures Whole(Apply(fold, w, step))
  {
    hide Between, Merge, Window, Increasing;
    match step {
      case Append(id) => AppendKeepsInv(w, id);
      case TakeDelta(delta) => DeltaKeepsWindowIff(w.log, w.reader, delta);
      case TakeSnapshot(snapshot) =>
        WindowMisses(w.log, w.reader.held, w.reader.cursor);
        SnapshotKeepsWindow(w.log, w.reader, snapshot);
      case _ =>
    }
  }

  lemma {:induction false} SnapshotKeepsWindow(log: Ids, reader: Reader, snapshot: Snapshot)
    requires Increasing(log) && Window(log, reader.held, reader.cursor) && Faithful(log, snapshot)
    requires 0 <= reader.cursor <= snapshot.cursor && forall id :: id in log ==> 0 < id
    ensures var after := Adopt(reader, snapshot);
            Window(log, after.held, after.cursor)
  {
    hide Between, Merge, Window;
    WindowMisses(log, reader.held, reader.cursor);
    SnapshotRepairsIff(log, reader, snapshot);
    assert reader.held != [] ==> reader.held[|reader.held| - 1] in reader.held;
  }

  lemma {:induction false} RunKeepsInv(fold: Fold, from: World, steps: seq<Step>, to: World)
    requires Inv(from) && Runs(fold, from, steps, to)
    ensures Inv(to)
    ensures Whole(from) && (fold.OnlyEqual? || NoneBelated(fold, from, steps)) ==> Whole(to)
    decreases |steps|
  {
    hide Inv, Whole, Enabled, Apply, Belated;
    if steps != [] {
      StepKeepsInv(fold, from, steps[0]);
      if Whole(from) && (fold.OnlyEqual? || NoneBelated(fold, from, steps)) {
        StepKeepsWhole(fold, from, steps[0]);
      }
      RunKeepsInv(fold, Apply(fold, from, steps[0]), steps[1..], to);
    }
  }

  lemma {:induction false} Reached(fold: Fold, steps: seq<Step>, w: World)
    requires Runs(fold, START, steps, w)
    ensures Inv(w) && (fold.OnlyEqual? || NoneBelated(fold, START, steps) ==> Whole(w))
  {
    assert START.reader.held == Between([], 0, 0);
    RunKeepsInv(fold, START, steps, w);
  }

  // Under any interleaving of watches, reads in flight and pushes, delivered in any order
  // and any number of times, what a reader holds that folds only pushes starting at its
  // cursor is exactly the log from some start up to that cursor. The same holds for the
  // web view's fold in every run in which it folds no belated push.
  lemma {:induction false} HeldIsTheLog(fold: Fold, steps: seq<Step>, w: World)
    requires Runs(fold, START, steps, w)
    requires fold.OnlyEqual? || NoneBelated(fold, START, steps)
    ensures Window(w.log, w.reader.held, w.reader.cursor)
  {
    Reached(fold, steps, w);
  }

  // A push that starts where an open reader is takes it to where the push ends, and nothing
  // is missing.
  lemma {:induction false} APushTakesTheReaderOn(fold: Fold, steps: seq<Step>, w: World, delta: Delta)
    requires Runs(fold, START, steps, w) && (fold.OnlyEqual? || NoneBelated(fold, START, steps))
    requires delta in w.deltas && w.reader.open && delta.from == w.reader.cursor
    ensures var after := Apply(fold, w, TakeDelta(delta));
            && after.reader.open && after.reader.cursor == delta.cursor
            && (forall id :: id in after.reader.held <==>
                  id in w.reader.held || (id in w.log && delta.from < id <= delta.cursor))
            && Window(w.log, after.reader.held, after.reader.cursor)
  {
    hide Between, Merge, Window, Folded, ApplyDelta;
    Reached(fold, steps, w);
    StepKeepsWhole(fold, w, TakeDelta(delta));
    WhatAPushDoes(w.reader, delta);
    GenuineBrings(w.log, delta);
    FoldedAtTheCursor(fold, w.reader, delta);
  }

  lemma {:induction false} FoldedAtTheCursor(fold: Fold, reader: Reader, delta: Delta)
    requires delta.from == reader.cursor
    ensures Folded(fold, reader, delta) == ApplyDelta(reader, delta)
  {
  }

  lemma {:induction false} GenuineBrings(log: Ids, delta: Delta)
    requires Increasing(log) && Genuine(log, delta)
    ensures delta.from <= delta.cursor
    ensures forall id :: id in delta.events <==> id in log && delta.from < id <= delta.cursor
  {
    BetweenHas(log, delta.from, delta.cursor);
  }

  // A read that ends with no push left the shell's cursor over rows the log does not have.
  lemma {:induction false} SilentAdvanceSkipsNothing(fold: Fold, steps: seq<Step>, w: World)
    requires Runs(fold, START, steps, w) && w.pull.Some? && w.watched == Some(w.pull.value.from)
    requires Apply(fold, w, FinishPull(false)).deltas == w.deltas && w.pull.value.events == []
    ensures forall id :: id in w.log ==> !(w.pull.value.from < id <= Apply(fold, w, FinishPull(false)).watched.value)
  {
    Reached(fold, steps, w);
    BetweenHas(w.log, w.pull.value.from, w.pull.value.cursor);
  }

  // --- Pushes that are lost ---

  // The shell is at `low` or past it, and so is the start of everything it pushes that is
  // not in `told`.
  ghost predicate PastIt(w: World, told: set<Delta>, low: int) {
    && low <= Head(w.log)
    && (w.watched.Some? ==> low <= w.watched.value)
    && forall delta :: delta in w.deltas - told ==> low <= delta.from
  }

  // No watch stores an answer older than that.
  ghost predicate StoresNoneOlder(steps: seq<Step>, low: int) {
    forall answer :: Store(answer) in steps ==> low <= answer.cursor
  }

  lemma {:induction false} StaysPast(fold: Fold, w: World, told: set<Delta>, low: int, steps: seq<Step>, t: World)
    requires Inv(w) && PastIt(w, told, low) && Runs(fold, w, steps, t) && StoresNoneOlder(steps, low)
    ensures PastIt(t, told, low)
    decreases |steps|
  {
    hide Between, Merge, Held, Increasing, Genuine, Faithful, LastOf, Insert, Collated;
    if steps != [] {
      assert steps[0] in steps && forall step :: step in steps[1..] ==> step in steps;
      StepKeepsInv(fold, w, steps[0]);
      StaysPast(fold, Apply(fold, w, steps[0]), told, low, steps[1..], t);
    }
  }

  // The shell is past a cursor that the web view has not reached, because a push was lost or
  // came while the task was closed. In every continuation, every push made since is answered
  // with a gap and changes nothing, as long as no watch stores an answer that is no further
  // than the web view.
  lemma {:induction false} ALostPushIsAGap(fold: Fold, before: seq<Step>, w: World, steps: seq<Step>, t: World,
                                           delta: Delta)
    requires Runs(fold, START, before, w) && w.watched.Some? && Runs(fold, w, steps, t)
    requires t.reader.open && t.reader.cursor < w.watched.value && delta in t.deltas && delta !in w.deltas
    requires forall answer :: Store(answer) in steps ==> t.reader.cursor < answer.cursor
    ensures Folded(fold, t.reader, delta) == (t.reader, Gap)
  {
    hide Between, Merge, Window, Genuine, Faithful, LastOf, Increasing;
    Reached(fold, before, w);
    StaysPast(fold, w, w.deltas, t.reader.cursor + 1, steps, t);
  }

  // And asking again reaches the head of the log. It leaves an exact window if no belated
  // push has been folded, and otherwise exactly when it starts over or reaches back to the
  // first event missing.
  lemma {:induction false} AskingAgainCatchesUp(fold: Fold, steps: seq<Step>, t: World, count: nat)
    requires Runs(fold, START, steps, t) && count > 0
    ensures var asked, answer := Apply(fold, t, Ask(count)), SnapshotOf(t.log, count);
            && Enabled(asked, Store(answer))
            && var stored := Apply(fold, asked, Store(answer));
               && Enabled(stored, TakeSnapshot(answer))
               && var after := Apply(fold, stored, TakeSnapshot(answer)).reader;
                  && after.cursor == Head(t.log)
                  && (fold.OnlyEqual? || NoneBelated(fold, START, steps) ==> Window(t.log, after.held, after.cursor))
                  && (Window(t.log, after.held, after.cursor) <==>
                        (Joins(t.reader, answer) ==> HeldUpTo(t.log, t.reader.held, answer.oldest)))
  {
    hide Between, Merge, Window, Genuine, Faithful, LastOf, Increasing;
    Reached(fold, steps, t);
    SnapshotIsFaithful(t.log, count);
    SnapshotRepairsIff(t.log, t.reader, SnapshotOf(t.log, count));
    if Whole(t) {
      SnapshotKeepsWindow(t.log, t.reader, SnapshotOf(t.log, count));
    }
  }

  // A continuation after which a push made in it is no gap to a web view that is still short
  // of where the shell was.
  ghost predicate TakenSince(w: World, steps: seq<Step>, t: World, delta: Delta)
    requires w.watched.Some?
  {
    && Runs(AsWritten, w, steps, t) && delta in t.deltas && delta !in w.deltas
    && t.reader.open && t.reader.cursor < w.watched.value
    && !Folded(AsWritten, t.reader, delta).1.Gap?
  }

  // There is one exactly when a watch is in flight whose answer is older than the shell.
  lemma {:induction false} ALateAnswerIff(before: seq<Step>, w: World)
    requires Runs(AsWritten, START, before, w) && w.watched.Some?
    requires w.reader.open && w.reader.cursor < w.watched.value
    ensures (exists steps, t, delta :: TakenSince(w, steps, t, delta)) <==>
            exists answer :: answer in w.asked && answer.cursor < w.watched.value
  {
    hide Runs, Inv, Apply, Enabled, Folded;
    Reached(AsWritten, before, w);
    WatchedIsInLog(w);
    if AllNew(w, w.watched.value) {
      forall steps, t, delta | Runs(AsWritten, w, steps, t)
        ensures !TakenSince(w, steps, t, delta)
      {
        AnswersStayNew(w, w.watched.value, steps, t);
        if TakenSince(w, steps, t, delta) {
          ALostPushIsAGap(AsWritten, before, w, steps, t, delta);
        }
      }
    } else {
      var answer :| answer in w.asked && answer.cursor < w.watched.value;
      var steps, t, delta := LateAnswer(before, w, answer);
    }
  }

  lemma {:induction false} WatchedIsInLog(w: World)
    requires Inv(w)
    ensures w.watched.Some? ==> w.watched.value <= Head(w.log)
    ensures forall answer :: answer in w.asked ==> Faithful(w.log, answer)
    ensures forall delta :: delta in w.deltas ==> delta.cursor <= Head(w.log)
    ensures Increasing(w.log) && 0 <= w.reader.cursor
  {
    hide Between, Held, Genuine, Faithful;
  }

  // Answers read from here on are as new as the log is.
  lemma {:induction false} AnswersStayNew(w: World, low: int, steps: seq<Step>, t: World)
    requires Inv(w) && Runs(AsWritten, w, steps, t) && AllNew(w, low)
    ensures StoresNoneOlder(steps, low)
    decreases |steps|
  {
    hide Inv, Enabled, Apply, AllNew;
    if steps != [] {
      assert steps == [steps[0]] + steps[1..];
      StepKeepsInv(AsWritten, w, steps[0]);
      StepStaysNew(w, low, steps[0]);
      AnswersStayNew(Apply(AsWritten, w, steps[0]), low, steps[1..], t);
    }
  }

  ghost predicate AllNew(w: World, low: int) {
    low <= Head(w.log) && forall answer :: answer in w.asked ==> low <= answer.cursor
  }

  lemma {:induction false} StepStaysNew(w: World, low: int, step: Step)
    requires Inv(w) && Enabled(w, step) && AllNew(w, low)
    ensures AllNew(Apply(AsWritten, w, step), low)
    ensures step.Store? ==> low <= step.answer.cursor
  {
    hide Between, Held, Genuine, Faithful, Merge, SnapshotOf, Folded, Increasing;
    if step.Ask? {
      SnapshotIsFaithful(w.log, step.count);
    }
  }

  // One step more.
  lemma {:induction false} Then(from: World, steps: seq<Step>, w: World, step: Step)
    returns (longer: seq<Step>, after: World)
    requires Runs(AsWritten, from, steps, w) && Enabled(w, step)
    ensures after == Apply(AsWritten, w, step) && longer == steps + [step] && Runs(AsWritten, from, longer, after)
  {
    longer, after := steps + [step], Apply(AsWritten, w, step);
    RunsOn(from, steps, w, step);
  }

  lemma {:induction false} RunsOn(from: World, steps: seq<Step>, w: World, step: Step)
    requires Runs(AsWritten, from, steps, w) && Enabled(w, step)
    ensures Runs(AsWritten, from, steps + [step], Apply(AsWritten, w, step))
    decreases |steps|
  {
    hide Enabled, Apply;
    if steps == [] {
      assert [step][1..] == [] && steps + [step] == [step];
    } else {
      assert (steps + [step])[1..] == steps[1..] + [step];
      RunsOn(Apply(AsWritten, from, steps[0]), steps[1..], w, step);
    }
  }

  lemma {:induction false} NoSteps(from: World) returns (steps: seq<Step>, w: World)
    ensures steps == [] && w == from && Runs(AsWritten, from, steps, w)
  {
    steps, w := [], from;
  }

  // A pull from start to end, with one page.
  lemma {:induction false} Pulls(from: World, steps: seq<Step>, w: World, cursor: int, moved: bool, events: Ids)
    returns (longer: seq<Step>, after: World)
    requires Runs(AsWritten, from, steps, w) && w.watched.Some? && w.pull.None?
    requires w.watched.value <= cursor <= Head(w.log)
    requires events == Between(w.log, w.watched.value, cursor) && (events == [] ==> moved)
    ensures after == w.(watched := Some(cursor), deltas := w.deltas + {Delta(w.watched.value, cursor, moved, events)})
    ensures Runs(AsWritten, from, longer, after)
  {
    hide Runs, Between;
    longer, after := Then(from, steps, w, StartPull);
    assert [] + events == events;
    longer, after := Then(from, longer, after, ReadPage(|events|, cursor));
    longer, after := Then(from, longer, after, FinishPull(moved));
  }

  // A watch that stores its answer at once, and the web view takes it.
  lemma {:induction false} Watches(from: World, steps: seq<Step>, w: World, answer: Snapshot)
    returns (longer: seq<Step>, after: World)
    requires Runs(AsWritten, from, steps, w) && answer == SnapshotOf(w.log, 1) && w.reader.cursor <= answer.cursor
    ensures Runs(AsWritten, from, longer, after)
    ensures after == w.(watched := Some(answer.cursor), snapshots := w.snapshots + {answer},
                        reader := Adopt(w.reader, answer))
  {
    hide Runs, Between, SnapshotOf, Adopt;
    longer, after := Then(from, steps, w, Ask(1));
    longer, after := Then(from, longer, after, Store(answer));
    assert after.asked == w.asked;
    longer, after := Then(from, longer, after, TakeSnapshot(answer));
  }

  lemma {:induction false} AdoptReaches(reader: Reader, snapshot: Snapshot)
    ensures var after := Adopt(reader, snapshot);
            after.open && after.cursor == Max(reader.cursor, snapshot.cursor)
  {
    hide Merge;
  }

  // The answer is stored, the web view takes it if it is ahead, and one more event is pulled.
  lemma {:induction false} LateAnswer(before: seq<Step>, w: World, answer: Snapshot)
    returns (steps: seq<Step>, t: World, delta: Delta)
    requires Runs(AsWritten, START, before, w) && w.watched.Some? && w.reader.open
    requires w.reader.cursor < w.watched.value && answer in w.asked && answer.cursor < w.watched.value
    ensures TakenSince(w, steps, t, delta)
  {
    hide Runs, Inv, Merge, Between, LastOf, Genuine, Faithful, Increasing, Adopt;
    AdoptReaches(w.reader, answer);
    Reached(AsWritten, before, w);
    WatchedIsInLog(w);
    var next := Head(w.log) + 1;
    steps, t := NoSteps(w);
    if w.pull.Some? {
      steps, t := Then(w, steps, t, PullFails);
    }
    steps, t := Then(w, steps, t, Store(answer));
    if w.reader.cursor < answer.cursor {
      steps, t := Then(w, steps, t, TakeSnapshot(answer));
    }
    steps, t := Then(w, steps, t, Append(next));
    PulledHas(w.log, next, answer.cursor);
    var events := Between(t.log, answer.cursor, next);
    delta := Delta(answer.cursor, next, false, events);
    steps, t := Pulls(w, steps, t, next, false, events);
  }

  lemma {:induction false} PulledHas(log: Ids, next: int, from: int)
    requires Increasing(log) && Head(log) < next && from < next
    ensures Between(log + [next], from, next) != [] && Head(log + [next]) == next
  {
    assert (log + [next])[..|log|] == log;
  }

  // A watch is taken; another asks and is slow to store. Meanwhile the shell goes on.
  lemma {:induction false} ASlowWatch(answer: Snapshot, delta: Delta) returns (steps: seq<Step>, w: World)
    requires answer == Snapshot([1], 1, 1) && delta == Delta(1, 2, false, [2])
    ensures Runs(AsWritten, START, steps, w)
    ensures w == World([1, 2], Some(2), multiset{answer}, None, {delta}, {answer}, Reader(true, [1], 1))
  {
    hide Runs, Merge, Between;
    FewMerge();
    steps, w := NoSteps(START);
    steps, w := Then(START, steps, w, Append(1));
    assert w.log == [1] && SnapshotOf(w.log, 1) == answer;
    steps, w := Watches(START, steps, w, answer);
    steps, w := Then(START, steps, w, Ask(1));
    steps, w := Then(START, steps, w, Append(2));
    assert w.log == [1, 2];
    steps, w := Pulls(START, steps, w, 2, false, [2]);
  }

  // The push of that is lost. Then the answer takes the shell back to where the web view is,
  // and the next push is folded, by either fold, with nothing missing.
  lemma {:induction false} ALateAnswerBringsThePushBack()
    returns (before: seq<Step>, w: World, steps: seq<Step>, t: World, delta: Delta)
    ensures Runs(AsWritten, START, before, w) && w.watched == Some(2) && w.reader == Reader(true, [1], 1)
    ensures Runs(AsWritten, w, steps, t) && t.reader == w.reader
    ensures delta == Delta(1, 3, false, [2, 3]) && delta in t.deltas && delta !in w.deltas
    ensures forall fold :: Folded(fold, t.reader, delta) == (Reader(true, [1, 2, 3], 3), Applied)
  {
    hide Runs, Merge, Between;
    FewMerge();
    var answer := Snapshot([1], 1, 1);
    delta := Delta(1, 3, false, [2, 3]);
    before, w := ASlowWatch(answer, Delta(1, 2, false, [2]));
    steps, t := NoSteps(w);
    steps, t := Then(w, steps, t, Store(answer));
    steps, t := Then(w, steps, t, Append(3));
    assert t.log == [1, 2, 3] && t.watched == Some(1);
    steps, t := Pulls(w, steps, t, 3, false, [2, 3]);
  }

  // --- A hole ---

  lemma {:induction false} FewMerge()
    ensures Merge([], [1]) == [1] && Merge([1], [2, 3]) == [1, 2, 3]
    ensures Merge([], [3]) == [3] && Merge([3], [1]) == [1, 3] && Merge([1, 3], [4]) == [1, 3, 4]
    ensures Between([1], 0, 1) == [1] && Between([1, 2], 1, 2) == [2] && Between([1, 2, 3], 1, 3) == [2, 3]
  {
    hide Between, Merge;
    MergesBehind();
    MergesBefore();
    Stretch([1], 0, 1, [1]);
    Stretch([1, 2], 1, 2, [2]);
    Stretch([1, 2, 3], 1, 3, [2, 3]);
  }

  lemma {:induction false} MergesBehind()
    ensures Merge([], [1]) == [1] && Merge([1], [2, 3]) == [1, 2, 3]
    ensures Merge([], [3]) == [3] && Merge([1, 3], [4]) == [1, 3, 4]
  {
    hide Collated;
  }

  lemma {:induction false} MergesBefore()
    ensures Merge([3], [1]) == [1, 3]
  {
    hide Merge;
    MergeHas([3], [1]);
    SameElements(Merge([3], [1]), [1, 3]);
  }

  lemma {:induction false} Stretch(log: Ids, from: int, to: int, ids: Ids)
    requires Increasing(log) && Increasing(ids) && forall id :: id in ids <==> id in log && from < id <= to
    ensures Between(log, from, to) == ids
  {
    BetweenHas(log, from, to);
    SameElements(Between(log, from, to), ids);
  }

  // A push is made for the first event, with the task's row, and is slow to arrive.
  lemma {:induction false} ASlowPush(delta: Delta) returns (steps: seq<Step>, w: World)
    requires delta == Delta(0, 1, true, [1])
    ensures Runs(AsWritten, START, steps, w)
    ensures w == World([1], Some(1), multiset{}, None, {delta}, {Snapshot([], 0, 0)}, Reader(false, [], 0))
  {
    hide Runs, Merge, Between;
    FewMerge();
    steps, w := NoSteps(START);
    steps, w := Then(START, steps, w, Ask(1));
    steps, w := Then(START, steps, w, Store(Snapshot([], 0, 0)));
    steps, w := Then(START, steps, w, Append(1));
    assert w.log == [1];
    steps, w := Pulls(START, steps, w, 1, true, [1]);
  }

  // The view opens the task two events later, with one event; then the slow push arrives and
  // is folded in before it. The event between the two is missing.
  lemma {:induction false} ABelatedPushOpensAHole() returns (steps: seq<Step>, w: World)
    ensures Runs(AsWritten, START, steps, w)
    ensures w.log == [1, 2, 3] && w.reader == Reader(true, [1, 3], 3) && w.asked == multiset{} && !Whole(w)
  {
    hide Runs, Merge, Between;
    var delta, snapshot := Delta(0, 1, true, [1]), Snapshot([3], 3, 3);
    FewMerge();
    steps, w := ASlowPush(delta);
    steps, w := Then(START, steps, w, Append(2));
    steps, w := Then(START, steps, w, Append(3));
    assert SnapshotOf(w.log, 1) == snapshot;
    steps, w := Watches(START, steps, w, snapshot);
    steps, w := Then(START, steps, w, TakeDelta(delta));
    HasAHole(w);
  }

  // One more event, and the task is watched again: the answer joins what is held, and the
  // hole stays.
  lemma {:induction false} AResyncKeepsTheHole() returns (steps: seq<Step>, w: World)
    ensures Runs(AsWritten, START, steps, w)
    ensures w.log == [1, 2, 3, 4] && w.reader == Reader(true, [1, 3, 4], 4) && !Whole(w)
  {
    hide Runs, Merge, Between;
    var snapshot := Snapshot([4], 4, 4);
    FewMerge();
    steps, w := ABelatedPushOpensAHole();
    steps, w := Then(START, steps, w, Append(4));
    assert SnapshotOf(w.log, 1) == snapshot;
    steps, w := Watches(START, steps, w, snapshot);
    HasAHole(w);
  }

  lemma {:induction false} HasAHole(w: World)
    requires Increasing(w.log) && 2 in w.log && 2 !in w.reader.held && w.reader.cursor >= 2
    requires w.reader.held != [] && w.reader.held[0] == 1
    ensures !Whole(w)
  {
    hide Between;
    if Whole(w) {
      WindowMisses(w.log, w.reader.held, w.reader.cursor);
    }
  }
}
