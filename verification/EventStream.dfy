// The broker's event log, the server that streams it, and the shell's pump that
// follows it across drops (rust/crates/oga-http/src/sse.rs,
// rust/crates/oga-client/src/loopback.rs and bridge.rs). Frames in flight are whole
// blocks: module Sse shows that a stream cut at any byte delivers a prefix of them.
module EventStream {
  import opened Basics
  import opened Logs

  // One row of the log; `visible` rows become task frames, the others only move cursors.
  datatype Entry = Entry(id: int, visible: bool)

  datatype Frame =
    | Ready(cursor: int, stale: bool)
    | Task(cursor: int)
    | Mark(cursor: int)       // a cursor or a keepalive frame
    | Garbled                 // a block that cannot be read

  // A response body: how far the server has read the log, and what is still in flight.
  datatype Body = Body(position: int, wire: seq<Frame>)

  datatype Stream = Stream(cursor: int, backoff: nat, body: Option<Body>)

  // `readsOn` is whether the reader keeps its stream after a block it cannot read. The
  // pump does not: it gives the stream up and opens another.
  datatype Options = Options(initialBackoff: nat, maxBackoff: nat, readsOn: bool)

  // A stale answer taken: where it found the cursor, and where it left it.
  datatype Jump = Jump(from: int, to: int)

  datatype Pump = Pump(
    cold: bool,
    cursor: int,
    stale: bool,
    stream: Option<Stream>,
    delivered: Ids,           // the task frames handed on, by cursor
    first: int,               // the head the shell read when it started
    jumps: seq<Jump>)

  // `log` has every row ever written; those whose ids are in `gone` have been deleted.
  datatype World = World(log: seq<Entry>, gone: set<int>, pump: Pump)

  datatype Step =
    | Append(id: int, visible: bool)
    | Delete(rows: set<int>)
    | ReadHead
    | Connect
    | ConnectFails
    | SendRow(row: nat)
    | SendMark
    | Corrupt(frame: nat)
    | Take
    | Drop
    | Reconnect
    | ReconnectFails

  // The last id given out, be its row kept or not.
  function Issued(log: seq<Entry>): int {
    if log == [] then 0 else log[|log| - 1].id
  }

  function RowIds(log: seq<Entry>): set<int> {
    set entry | entry in log :: entry.id
  }

  // The least and the greatest id among the rows that are left, 0 for none.
  function Oldest(log: seq<Entry>, gone: set<int>): int {
    if log == [] then 0
    else
      var init, last := log[..|log| - 1], log[|log| - 1];
      if Oldest(init, gone) > 0 || last.id in gone then Oldest(init, gone) else last.id
  }

  function Latest(log: seq<Entry>, gone: set<int>): int {
    if log == [] then 0
    else
      var init, last := log[..|log| - 1], log[|log| - 1];
      if last.id in gone then Latest(init, gone) else last.id
  }

  function FirstBackoff(options: Options): nat {
    Min(options.initialBackoff, options.maxBackoff)
  }

  function NextBackoff(options: Options, backoff: nat): nat {
    Min(2 * backoff, options.maxBackoff)
  }

  // Whether the server finds that a cursor fell off the log.
  predicate Stale(w: World, after: int) {
    var floor := Oldest(w.log, w.gone);
    after > 0 && floor > 0 && after < floor
  }

  // What the server answers a request for the log after `after`: a cursor that fell off
  // the log restarts at the head, and the answer says so.
  function Answer(w: World, after: int): Body {
    var stale := Stale(w, after);
    var position := if stale then Latest(w.log, w.gone) else after;
    Body(position, [Ready(position, stale)])
  }

  predicate HasBody(w: World) {
    w.pump.stream.Some? && w.pump.stream.value.body.Some?
  }

  function BodyOf(w: World): Body
    requires HasBody(w)
  {
    w.pump.stream.value.body.value
  }

  predicate Enabled(w: World, step: Step) {
    match step
    case Append(id, _) => id > Issued(w.log)
    case Delete(rows) => rows <= RowIds(w.log)
    case ReadHead => w.pump.cold
    case Connect => !w.pump.cold && w.pump.stream.None?
    case ConnectFails => !w.pump.cold && w.pump.stream.None?
    case SendRow(row) => HasBody(w) && row < |w.log| && NextRow(w, row)
    case SendMark => HasBody(w)
    case Corrupt(frame) => HasBody(w) && frame < |BodyOf(w).wire|
    case Take => HasBody(w) && BodyOf(w).wire != []
    case Drop => HasBody(w)
    case Reconnect => w.pump.stream.Some? && w.pump.stream.value.body.None?
    case ReconnectFails => w.pump.stream.Some? && w.pump.stream.value.body.None?
  }

  // The first row left after the server's position.
  predicate NextRow(w: World, row: nat)
    requires HasBody(w) && row < |w.log|
  {
    && w.log[row].id !in w.gone
    && w.log[row].id > BodyOf(w).position
    && forall i :: 0 <= i < row ==> w.log[i].id in w.gone || w.log[i].id <= BodyOf(w).position
  }

  function WithBody(w: World, body: Option<Body>): World
    requires w.pump.stream.Some?
  {
    w.(pump := w.pump.(stream := Some(w.pump.stream.value.(body := body))))
  }

  // The shell reads one frame: the stream advances, the pump records it and hands a task
  // frame on.
  function Taken(options: Options, w: World): World
    requires HasBody(w) && BodyOf(w).wire != []
  {
    var frame, rest := BodyOf(w).wire[0], BodyOf(w).(wire := BodyOf(w).wire[1..]);
    var pump, stream := w.pump, w.pump.stream.value;
    if frame.Garbled? then
      if options.readsOn then WithBody(w, Some(rest)) else w.(pump := pump.(stream := None))
    else
      var moved := Stream(
        Max(stream.cursor, frame.cursor), if frame.Ready? then FirstBackoff(options) else stream.backoff, Some(rest));
      var cursor := Max(pump.cursor, frame.cursor);
      w.(pump := pump.(
        cursor := cursor,
        stale := if frame.Ready? then frame.stale else pump.stale,
        stream := Some(moved),
        delivered := if frame.Task? then pump.delivered + [frame.cursor] else pump.delivered,
        jumps := if frame.Ready? && frame.stale then pump.jumps + [Jump(pump.cursor, cursor)] else pump.jumps))
  }

  function Apply(options: Options, w: World, step: Step): World
    requires Enabled(w, step)
  {
    match step
    case Append(id, visible) => w.(log := w.log + [Entry(id, visible)])
    case Delete(rows) => w.(gone := w.gone + rows)
    case ReadHead =>
      var head := Latest(w.log, w.gone);
      w.(pump := w.pump.(cold := false, cursor := head, first := head))
    case Connect =>
      var stream := Stream(w.pump.cursor, NextBackoff(options, FirstBackoff(options)), Some(Answer(w, w.pump.cursor)));
      w.(pump := w.pump.(stream := Some(stream)))
    case ConnectFails => w
    case SendRow(row) =>
      var entry, body := w.log[row], BodyOf(w);
      WithBody(w, Some(Body(entry.id, body.wire + if entry.visible then [Task(entry.id)] else [])))
    case SendMark =>
      var body := BodyOf(w);
      WithBody(w, Some(body.(wire := body.wire + [Mark(body.position)])))
    case Corrupt(frame) =>
      var body := BodyOf(w);
      WithBody(w, Some(body.(wire := body.wire[frame := Garbled])))
    case Take => Taken(options, w)
    case Drop => WithBody(w, None)
    case Reconnect =>
      var stream := w.pump.stream.value;
      var next := Stream(stream.cursor, NextBackoff(options, stream.backoff), Some(Answer(w, stream.cursor)));
      w.(pump := w.pump.(stream := Some(next)))
    case ReconnectFails => w.(pump := w.pump.(stream := None))
  }

  const START := World([], {}, Pump(true, 0, false, None, [], 0, []))

  ghost predicate Runs(options: Options, from: World, steps: seq<Step>, to: World)
    decreases |steps|
  {
    if steps == [] then from == to
    else Enabled(from, steps[0]) && Runs(options, Apply(options, from, steps[0]), steps[1..], to)
  }

  ghost predicate Ordered(log: seq<Entry>) {
    && (forall i, j :: 0 <= i < j < |log| ==> log[i].id < log[j].id)
    && (forall i :: 0 <= i < |log| ==> 0 < log[i].id)
  }

  // The ids a reader is to see.
  function Visible(log: seq<Entry>): Ids {
    if log == [] then []
    else
      var last := log[|log| - 1];
      Visible(log[..|log| - 1]) + if last.visible then [last.id] else []
  }

  lemma {:induction false} VisibleHas(log: seq<Entry>)
    requires Ordered(log)
    ensures forall id :: id in Visible(log) <==> Entry(id, true) in log
    ensures forall id :: id in Visible(log) ==> 0 < id <= Issued(log)
    ensures Increasing(Visible(log))
  {
    if log != [] {
      var init, last := log[..|log| - 1], log[|log| - 1];
      VisibleHas(init);
      assert log == init + [last];
      IncreasingAdds(Visible(init), last.id);
    }
  }

  lemma {:induction false} VisibleAppends(log: seq<Entry>, entry: Entry)
    ensures Visible(log + [entry]) == Visible(log) + if entry.visible then [entry.id] else []
  {
    assert (log + [entry])[..|log|] == log;
  }

  lemma {:induction false} RowIdsAdd(log: seq<Entry>, entry: Entry)
    ensures RowIds(log + [entry]) == RowIds(log) + {entry.id}
  {
    assert forall row :: row in log + [entry] <==> row in log || row == entry;
    assert entry in log + [entry];
  }

  lemma {:induction false} RowsFit(log: seq<Entry>)
    requires Ordered(log)
    ensures RowIds([]) == {}
    ensures forall id :: id in RowIds(log) ==> 0 < id && Fits(log, id)
    ensures log != [] ==> log[0].id in RowIds(log) && Issued(log) in RowIds(log)
  {
    assert log != [] ==> log[0] in log && log[|log| - 1] in log;
  }

  lemma {:induction false} OrderedAdds(log: seq<Entry>, entry: Entry)
    ensures Ordered(log + [entry]) <==> Ordered(log) && 0 < entry.id && Issued(log) < entry.id
  {
    var all := log + [entry];
    assert forall i :: 0 <= i < |log| ==> all[i] == log[i];
    assert all[|log|] == entry;
    assert log != [] ==> all[|log| - 1] == log[|log| - 1];
  }

  // What the least and the greatest id left are.
  lemma {:induction false} OldestIs(log: seq<Entry>, gone: set<int>)
    requires Ordered(log)
    ensures var oldest := Oldest(log, gone);
            if RowIds(log) <= gone then oldest == 0 else oldest in RowIds(log) && oldest !in gone
    ensures forall id :: id in RowIds(log) && id !in gone ==> Oldest(log, gone) <= id
  {
    hide RowIds, Ordered;
    RowsFit(log);
    if log != [] {
      var init, last := log[..|log| - 1], log[|log| - 1];
      assert log == init + [last];
      OrderedAdds(init, last);
      OldestIs(init, gone);
      RowsFit(init);
      RowIdsAdd(init, last);
    }
  }

  lemma {:induction false} LatestIs(log: seq<Entry>, gone: set<int>)
    requires Ordered(log)
    ensures var latest := Latest(log, gone);
            if RowIds(log) <= gone then latest == 0 else latest in RowIds(log) && latest !in gone
    ensures forall id :: id in RowIds(log) && id !in gone ==> id <= Latest(log, gone)
  {
    hide RowIds, Ordered;
    RowsFit(log);
    if log != [] {
      var init, last := log[..|log| - 1], log[|log| - 1];
      assert log == init + [last];
      OrderedAdds(init, last);
      LatestIs(init, gone);
      RowsFit(init);
      RowIdsAdd(init, last);
    }
  }

  // A cursor that is zero or lies among the ids given out.
  ghost predicate Fits(log: seq<Entry>, cursor: int) {
    cursor == 0 || (log != [] && log[0].id <= cursor <= Issued(log))
  }

  // --- What is in flight ---

  // Going from one cursor to another leaves out nothing but deleted rows.
  ghost predicate Passed(ids: Ids, gone: set<int>, from: int, to: int) {
    forall id :: id in ids && from < id <= to ==> id in gone
  }

  // What is in flight takes a reader at `at` to `position` over every visible row in
  // between that is left, in order. Past a block that cannot be read, or over a stale
  // restart, nothing is promised.
  ghost predicate Chain(ids: Ids, gone: set<int>, at: int, wire: seq<Frame>, position: int)
    decreases |wire|
  {
    if wire == [] then at <= position && Passed(ids, gone, at, position)
    else
      match wire[0]
      case Garbled => true
      case Task(id) =>
        at < id && id in ids && Passed(ids, gone, at, id - 1) && Chain(ids, gone, id, wire[1..], position)
      case Mark(id) => at <= id && Passed(ids, gone, at, id) && Chain(ids, gone, id, wire[1..], position)
      case Ready(id, stale) =>
        at <= id && (!stale ==> Passed(ids, gone, at, id)) && Chain(ids, gone, id, wire[1..], position)
  }

  // Every frame in flight stays at or below the server's position.
  ghost predicate Behind(log: seq<Entry>, wire: seq<Frame>, position: int) {
    forall i :: 0 <= i < |wire| && !wire[i].Garbled? ==> wire[i].cursor <= position && Fits(log, wire[i].cursor)
  }

  lemma {:induction false} ChainSends(ids: Ids, gone: set<int>, at: int, wire: seq<Frame>, position: int, frame: Frame)
    requires Chain(ids, gone, at, wire, position) && (frame.Mark? || frame.Task?) && position <= frame.cursor
    requires frame.Mark? ==> Passed(ids, gone, position, frame.cursor)
    requires frame.Task? ==>
               position < frame.cursor && frame.cursor in ids && Passed(ids, gone, position, frame.cursor - 1)
    ensures Chain(ids, gone, at, wire + [frame], frame.cursor)
    decreases |wire|
  {
    if wire == [] {
      assert wire + [frame] == [frame] && [frame][1..] == [];
    } else {
      assert (wire + [frame])[1..] == wire[1..] + [frame];
      if !wire[0].Garbled? {
        ChainSends(ids, gone, wire[0].cursor, wire[1..], position, frame);
      }
    }
  }

  // Skipping over rows nobody is to see needs no frame.
  lemma {:induction false} ChainSkips(ids: Ids, gone: set<int>, at: int, wire: seq<Frame>, position: int, to: int)
    requires Chain(ids, gone, at, wire, position) && position <= to && Passed(ids, gone, position, to)
    ensures Chain(ids, gone, at, wire, to)
    decreases |wire|
  {
    if wire != [] && !wire[0].Garbled? {
      ChainSkips(ids, gone, wire[0].cursor, wire[1..], position, to);
    }
  }

  // Rows written later, and rows deleted, change nothing of what is in flight.
  lemma {:induction false} ChainLasts(ids: Ids, more: Ids, gone: set<int>, less: set<int>, at: int, wire: seq<Frame>,
                                      position: int)
    requires Chain(ids, gone, at, wire, position) && gone <= less
    requires forall id :: id in ids ==> id in more
    requires forall id :: id in more && id <= position ==> id in ids
    requires forall i :: 0 <= i < |wire| && !wire[i].Garbled? ==> wire[i].cursor <= position
    ensures Chain(more, less, at, wire, position)
    decreases |wire|
  {
    if wire != [] && !wire[0].Garbled? {
      ChainLasts(ids, more, gone, less, wire[0].cursor, wire[1..], position);
    }
  }

  lemma {:induction false} ChainSurvivesCorruption(ids: Ids, gone: set<int>, at: int, wire: seq<Frame>, position: int,
                                                   k: nat)
    requires Chain(ids, gone, at, wire, position) && k < |wire|
    ensures Chain(ids, gone, at, wire[k := Garbled], position)
    decreases |wire|
  {
    if k > 0 {
      assert wire[k := Garbled][1..] == wire[1..][k - 1 := Garbled];
      if !wire[0].Garbled? {
        ChainSurvivesCorruption(ids, gone, wire[0].cursor, wire[1..], position, k - 1);
      }
    }
  }

  // --- Every run ---

  ghost predicate Jumped(jumps: seq<Jump>, id: int) {
    exists i :: 0 <= i < |jumps| && jumps[i].from < id <= jumps[i].to
  }

  // What was handed on is in order and was there to be seen; what was not was deleted, or
  // passed over by a restart the shell was told of.
  ghost predicate Accounted(ids: Ids, gone: set<int>, first: int, cursor: int, delivered: Ids, jumps: seq<Jump>) {
    && first <= cursor && Increasing(delivered)
    && (forall id :: id in delivered ==> id in ids && first < id <= cursor)
    && (forall id :: id in ids && first < id <= cursor ==> id in delivered || id in gone || Jumped(jumps, id))
    && (forall i :: 0 <= i < |jumps| ==> jumps[i].to <= cursor)
  }

  ghost predicate StreamInv(options: Options, w: World)
    requires w.pump.stream.Some?
  {
    var stream := w.pump.stream.value;
    && stream.cursor == w.pump.cursor
    && stream.backoff <= options.maxBackoff
    && (stream.body.Some? ==>
          var body := stream.body.value;
          && Fits(w.log, body.position)
          && Behind(w.log, body.wire, body.position)
          && Chain(Visible(w.log), w.gone, w.pump.cursor, body.wire, body.position)
          && (w.gone == {} ==> forall i :: 0 <= i < |body.wire| && body.wire[i].Ready? ==> !body.wire[i].stale))
  }

  ghost predicate Inv(options: Options, w: World) {
    && Ordered(w.log)
    && w.gone <= RowIds(w.log)
    && Fits(w.log, w.pump.cursor)
    && (w.pump.cold ==>
          && w.pump.stream.None? && w.pump.delivered == [] && w.pump.jumps == []
          && w.pump.first == w.pump.cursor == 0)
    && Accounted(Visible(w.log), w.gone, w.pump.first, w.pump.cursor, w.pump.delivered, w.pump.jumps)
    && (w.gone == {} ==> w.pump.jumps == [])
    && (w.pump.stream.Some? ==> StreamInv(options, w))
  }

  lemma {:induction false} AnswerIsSound(options: Options, w: World, backoff: nat)
    requires Inv(options, w) && backoff <= options.maxBackoff && !w.pump.cold
    ensures var answered := Stream(w.pump.cursor, backoff, Some(Answer(w, w.pump.cursor)));
            Inv(options, w.(pump := w.pump.(stream := Some(answered))))
  {
    hide Visible, Oldest, Latest, Accounted, RowIds, Ordered, Issued;
    var ids, at, body := Visible(w.log), w.pump.cursor, Answer(w, w.pump.cursor);
    assert body.wire == [Ready(body.position, Stale(w, at))];
    AnswerLeadsOn(w, at);
    NothingPassed(ids, w.gone, at);
    assert body.wire[1..] == [];
    NothingPassed(ids, w.gone, body.position);
    assert Chain(ids, w.gone, body.position, body.wire[1..], body.position);
    assert Chain(ids, w.gone, at, body.wire, body.position);
  }

  lemma {:induction false} AnswerLeadsOn(w: World, after: int)
    requires Ordered(w.log) && Fits(w.log, after)
    ensures after <= Answer(w, after).position && Fits(w.log, Answer(w, after).position)
    ensures w.gone == {} ==> !Stale(w, after)
  {
    hide Oldest, Latest, RowIds;
    OldestIs(w.log, w.gone);
    LatestIs(w.log, w.gone);
    RowsFit(w.log);
  }

  lemma {:induction false} RowLeadsOn(w: World, row: nat)
    requires Ordered(w.log) && HasBody(w) && row < |w.log| && NextRow(w, row)
    ensures var entry := w.log[row];
            && (entry.id in Visible(w.log) <==> entry.visible)
            && Passed(Visible(w.log), w.gone, BodyOf(w).position, entry.id - 1)
            && Fits(w.log, entry.id)
  {
    var entry := w.log[row];
    VisibleHas(w.log);
    assert entry in w.log;
    if entry.id in Visible(w.log) {
      var i :| 0 <= i < |w.log| && w.log[i] == Entry(entry.id, true);
      assert i == row;
    }
    forall id | id in Visible(w.log) && BodyOf(w).position < id <= entry.id - 1
      ensures id in w.gone
    {
      var i :| 0 <= i < |w.log| && w.log[i] == Entry(id, true);
      assert i < row;
    }
  }

  lemma {:induction false} ServerKeepsInv(options: Options, w: World, step: Step)
    requires Inv(options, w) && Enabled(w, step) && (step.SendRow? || step.SendMark? || step.Corrupt?)
    ensures Inv(options, Apply(options, w, step))
  {
    hide Visible, RowIds, Ordered, Passed, Accounted, Fits;
    var ids, body, at := Visible(w.log), BodyOf(w), w.pump.cursor;
    match step {
      case SendRow(row) =>
        RowLeadsOn(w, row);
        SendsNext(ids, w.gone, at, body, w.log[row]);
      case SendMark =>
        NothingPassed(ids, w.gone, body.position);
        ChainSends(ids, w.gone, at, body.wire, body.position, Mark(body.position));
      case Corrupt(frame) =>
        ChainSurvivesCorruption(ids, w.gone, at, body.wire, body.position, frame);
    }
  }

  lemma {:induction false} NothingPassed(ids: Ids, gone: set<int>, at: int)
    ensures Passed(ids, gone, at, at)
  {
  }

  lemma {:induction false} SendsNext(ids: Ids, gone: set<int>, at: int, body: Body, entry: Entry)
    requires Chain(ids, gone, at, body.wire, body.position) && body.position < entry.id
    requires Passed(ids, gone, body.position, entry.id - 1) && (entry.id in ids <==> entry.visible)
    ensures Chain(ids, gone, at, body.wire + if entry.visible then [Task(entry.id)] else [], entry.id)
  {
    if entry.visible {
      ChainSends(ids, gone, at, body.wire, body.position, Task(entry.id));
    } else {
      assert body.wire + [] == body.wire;
      assert Passed(ids, gone, body.position, entry.id);
      ChainSkips(ids, gone, at, body.wire, body.position, entry.id);
    }
  }

  lemma {:induction false} AppendKeepsInv(options: Options, w: World, entry: Entry)
    requires Inv(options, w) && entry.id > Issued(w.log)
    ensures Inv(options, w.(log := w.log + [entry]))
  {
    hide Visible, Chain, RowIds, Ordered, Accounted, Passed;
    var t := w.(log := w.log + [entry]);
    RowsFit(w.log);
    OrderedAdds(w.log, entry);
    RowIdsAdd(w.log, entry);
    LaterIds(w.log, entry);
    AppendIsAccounted(Visible(w.log), Visible(t.log), w.gone, w.pump);
    if HasBody(w) {
      var body := BodyOf(w);
      ChainLasts(Visible(w.log), Visible(t.log), w.gone, w.gone, w.pump.cursor, body.wire, body.position);
    }
  }

  // Below an id given out, a new row changes nothing of what is visible.
  lemma {:induction false} LaterIds(log: seq<Entry>, entry: Entry)
    requires Ordered(log) && Issued(log) < entry.id
    ensures forall id :: id in Visible(log) ==> id in Visible(log + [entry])
    ensures forall id :: id in Visible(log + [entry]) && id <= Issued(log) ==> id in Visible(log)
    ensures forall cursor :: Fits(log, cursor) ==> cursor <= Max(0, Issued(log)) && Fits(log + [entry], cursor)
  {
    VisibleAppends(log, entry);
    hide Visible;
  }

  lemma {:induction false} AppendIsAccounted(ids: Ids, more: Ids, gone: set<int>, pump: Pump)
    requires Accounted(ids, gone, pump.first, pump.cursor, pump.delivered, pump.jumps)
    requires forall id :: id in ids ==> id in more
    requires forall id :: id in more && id <= pump.cursor ==> id in ids
    ensures Accounted(more, gone, pump.first, pump.cursor, pump.delivered, pump.jumps)
  {
    hide Increasing, Jumped;
  }

  lemma {:induction false} DeleteKeepsInv(options: Options, w: World, rows: set<int>)
    requires Inv(options, w) && rows <= RowIds(w.log)
    ensures Inv(options, w.(gone := w.gone + rows))
  {
    if HasBody(w) {
      var body := BodyOf(w);
      ChainLasts(Visible(w.log), Visible(w.log), w.gone, w.gone + rows, w.pump.cursor, body.wire, body.position);
    }
    hide Visible, Chain, RowIds;
  }

  lemma {:induction false} TakeKeepsInv(options: Options, w: World)
    requires Inv(options, w) && Enabled(w, Take) && !options.readsOn
    ensures Inv(options, Taken(options, w))
  {
    hide Visible, RowIds, Ordered, Accounted, Passed, Fits;
    var body := BodyOf(w);
    if !body.wire[0].Garbled? {
      TakeIsAccounted(options, w);
      assert forall i :: 0 <= i < |body.wire[1..]| ==> body.wire[1..][i] == body.wire[i + 1];
    }
  }

  lemma {:induction false} TakeIsAccounted(options: Options, w: World)
    requires Inv(options, w) && Enabled(w, Take) && !BodyOf(w).wire[0].Garbled?
    ensures var pump := Taken(options, w).pump;
            && w.pump.cursor <= BodyOf(w).wire[0].cursor == pump.cursor
            && Accounted(Visible(w.log), w.gone, pump.first, pump.cursor, pump.delivered, pump.jumps)
  {
    hide Visible, RowIds, Ordered, Fits, Increasing, Jumped;
    var pump, taken, frame := w.pump, Taken(options, w).pump, BodyOf(w).wire[0];
    JumpsStay(pump.jumps, taken.jumps);
    if frame.Task? {
      IncreasingAdds(pump.delivered, frame.cursor);
      assert pump.cursor < frame.cursor && frame.cursor in Visible(w.log);
      assert forall id :: id in taken.delivered <==> id in pump.delivered || id == frame.cursor;
    } else if frame.Ready? && frame.stale {
      var last := |pump.jumps|;
      assert taken.jumps[last] == Jump(pump.cursor, frame.cursor);
      JumpsOver(taken.jumps, last);
    }
  }

  lemma {:induction false} JumpsOver(jumps: seq<Jump>, i: nat)
    requires i < |jumps|
    ensures forall id :: jumps[i].from < id <= jumps[i].to ==> Jumped(jumps, id)
  {
  }

  lemma {:induction false} JumpsStay(jumps: seq<Jump>, more: seq<Jump>)
    requires jumps <= more
    ensures forall id :: Jumped(jumps, id) ==> Jumped(more, id)
  {
    assert forall i :: 0 <= i < |jumps| ==> jumps[i] == more[i];
  }

  lemma {:induction false} HeadKeepsInv(options: Options, w: World)
    requires Inv(options, w) && w.pump.cold
    ensures Inv(options, Apply(options, w, ReadHead))
  {
    LatestIs(w.log, w.gone);
    RowsFit(w.log);
    hide Visible, RowIds;
  }

  lemma {:induction false} StepKeepsInv(options: Options, w: World, step: Step)
    requires Inv(options, w) && Enabled(w, step) && !options.readsOn
    ensures Inv(options, Apply(options, w, step))
  {
    match step {
      case Append(id, visible) => AppendKeepsInv(options, w, Entry(id, visible));
      case Delete(rows) => DeleteKeepsInv(options, w, rows);
      case SendRow(_) => ServerKeepsInv(options, w, step);
      case SendMark => ServerKeepsInv(options, w, step);
      case Corrupt(_) => ServerKeepsInv(options, w, step);
      case Take => TakeKeepsInv(options, w);
      case Connect => AnswerIsSound(options, w, NextBackoff(options, FirstBackoff(options)));
      case Reconnect => AnswerIsSound(options, w, NextBackoff(options, w.pump.stream.value.backoff));
      case ReadHead => HeadKeepsInv(options, w);
      case ConnectFails =>
      case Drop => hide Visible, Chain, RowIds;
      case ReconnectFails => hide Visible, Chain, RowIds;
    }
  }

  lemma {:induction false} StepGrows(options: Options, w: World, step: Step)
    requires Inv(options, w) && Enabled(w, step)
    ensures var t := Apply(options, w, step);
            && w.pump.cursor <= t.pump.cursor && w.pump.delivered <= t.pump.delivered && w.pump.jumps <= t.pump.jumps
            && (!w.pump.cold ==> !t.pump.cold && t.pump.first == w.pump.first)
  {
    LatestIs(w.log, w.gone);
    RowsFit(w.log);
    hide Visible, Chain, Oldest, Latest, RowIds;
  }

  lemma {:induction false} RunKeepsInv(options: Options, from: World, steps: seq<Step>, to: World)
    requires Inv(options, from) && Runs(options, from, steps, to) && !options.readsOn
    ensures Inv(options, to)
    ensures from.pump.cursor <= to.pump.cursor
    ensures from.pump.delivered <= to.pump.delivered && from.pump.jumps <= to.pump.jumps
    ensures !from.pump.cold ==> !to.pump.cold && to.pump.first == from.pump.first
    decreases |steps|
  {
    hide Inv, Enabled, Apply;
    if steps != [] {
      StepKeepsInv(options, from, steps[0]);
      StepGrows(options, from, steps[0]);
      RunKeepsInv(options, Apply(options, from, steps[0]), steps[1..], to);
    }
  }

  lemma {:induction false} Reached(options: Options, steps: seq<Step>, w: World)
    requires Runs(options, START, steps, w) && !options.readsOn
    ensures Inv(options, w) && Ordered(w.log)
  {
    RunKeepsInv(options, START, steps, w);
  }

  // Over any number of drops, unreadable blocks, failed reconnects and deletions: what was
  // handed on is each visible row between the head the shell read and its cursor, once and
  // in order, but for those that were deleted and those a stale answer passed over. The
  // wait between attempts never passes the limit.
  lemma {:induction false} ExactlyOnce(options: Options, steps: seq<Step>, w: World)
    requires Runs(options, START, steps, w) && !options.readsOn
    ensures var due := Between(Visible(w.log), w.pump.first, w.pump.cursor);
            var missed := set id | id in due && id !in w.pump.delivered;
            && w.pump.delivered == Without(due, missed)
            && forall id :: id in missed ==> id in w.gone || Jumped(w.pump.jumps, id)
    ensures w.pump.stream.Some? ==>
              w.pump.stream.value.cursor == w.pump.cursor && w.pump.stream.value.backoff <= options.maxBackoff
  {
    Reached(options, steps, w);
    var due := Between(Visible(w.log), w.pump.first, w.pump.cursor);
    var missed := set id | id in due && id !in w.pump.delivered;
    VisibleHas(w.log);
    BetweenHas(Visible(w.log), w.pump.first, w.pump.cursor);
    WithoutHas(due, missed);
    SameElements(w.pump.delivered, Without(due, missed));
  }

  // Cursors and what was handed on only ever grow.
  lemma {:induction false} CursorsNeverDecrease(options: Options, steps: seq<Step>, w: World, more: seq<Step>,
                                                later: World)
    requires Runs(options, START, steps, w) && Runs(options, w, more, later) && !options.readsOn
    ensures w.pump.cursor <= later.pump.cursor && w.pump.delivered <= later.pump.delivered
  {
    Reached(options, steps, w);
    RunKeepsInv(options, w, more, later);
  }

  // --- While nothing is deleted ---

  ghost predicate NoDeletes(steps: seq<Step>) {
    forall step :: step in steps ==> !step.Delete?
  }

  lemma {:induction false} NothingElseGoes(options: Options, from: World, steps: seq<Step>, to: World)
    requires Runs(options, from, steps, to) && NoDeletes(steps)
    ensures to.gone == from.gone
    decreases |steps|
  {
    if steps != [] {
      assert steps[0] in steps && forall step :: step in steps[1..] ==> step in steps;
      NothingElseGoes(options, Apply(options, from, steps[0]), steps[1..], to);
    }
  }

  // With no deletion at all, no answer is stale and nothing is left out.
  lemma {:induction false} NothingIsLostUnlessDeleted(options: Options, steps: seq<Step>, w: World)
    requires Runs(options, START, steps, w) && NoDeletes(steps) && !options.readsOn
    ensures w.pump.delivered == Between(Visible(w.log), w.pump.first, w.pump.cursor)
    ensures w.pump.jumps == []
  {
    Reached(options, steps, w);
    NothingElseGoes(options, START, steps, w);
    VisibleHas(w.log);
    BetweenHas(Visible(w.log), w.pump.first, w.pump.cursor);
    assert forall id :: !Jumped(w.pump.jumps, id);
    SameElements(w.pump.delivered, Between(Visible(w.log), w.pump.first, w.pump.cursor));
  }

  ghost predicate TasksLeft(wire: seq<Frame>, gone: set<int>) {
    forall frame :: frame in wire && frame.Task? ==> frame.cursor !in gone
  }

  // What was handed on since `from`, and what is in flight, was all still there.
  ghost predicate Left(from: World, w: World) {
    && w.gone == from.gone
    && from.pump.delivered <= w.pump.delivered
    && (forall id :: id in w.pump.delivered[|from.pump.delivered|..] ==> from.pump.cursor < id && id !in w.gone)
    && (HasBody(w) ==> TasksLeft(BodyOf(w).wire, w.gone))
  }

  lemma {:induction false} StepLeaves(options: Options, from: World, w: World, step: Step)
    requires Inv(options, w) && Left(from, w) && from.pump.cursor <= w.pump.cursor
    requires Enabled(w, step) && !step.Delete?
    ensures Left(from, Apply(options, w, step))
  {
    hide Visible, RowIds, Ordered, Accounted, Oldest, Latest, Passed, Fits;
    if step.Take? {
      TakeLeaves(options, from, w);
    } else if step.Corrupt? {
      var wire, garbled := BodyOf(w).wire, BodyOf(w).wire[step.frame := Garbled];
      assert forall frame :: frame in garbled ==> frame in wire || frame == Garbled;
    }
  }

  lemma {:induction false} TakeLeaves(options: Options, from: World, w: World)
    requires Inv(options, w) && Left(from, w) && from.pump.cursor <= w.pump.cursor && Enabled(w, Take)
    ensures Left(from, Taken(options, w))
  {
    hide Visible, RowIds, Ordered, Accounted, Oldest, Latest, Passed, Fits, Behind;
    var wire, taken, n := BodyOf(w).wire, Taken(options, w).pump, |from.pump.delivered|;
    assert Chain(Visible(w.log), w.gone, w.pump.cursor, wire, BodyOf(w).position);
    assert forall frame :: frame in wire[1..] ==> frame in wire;
    if wire[0].Task? {
      assert wire[0] in wire;
      assert taken.delivered[n..] == w.pump.delivered[n..] + [wire[0].cursor];
    }
  }

  lemma {:induction false} RunLeaves(options: Options, from: World, w: World, steps: seq<Step>, to: World)
    requires Inv(options, w) && Left(from, w) && from.pump.cursor <= w.pump.cursor && !options.readsOn
    requires Runs(options, w, steps, to) && NoDeletes(steps)
    ensures Left(from, to)
    decreases |steps|
  {
    hide Inv, Enabled, Apply, Left;
    if steps != [] {
      assert steps[0] in steps && forall step :: step in steps[1..] ==> step in steps;
      StepLeaves(options, from, w, steps[0]);
      StepKeepsInv(options, w, steps[0]);
      StepGrows(options, w, steps[0]);
      RunLeaves(options, from, Apply(options, w, steps[0]), steps[1..], to);
    }
  }

  // Started, and about to connect, be it anew or after a drop.
  predicate Idle(w: World) {
    !w.pump.cold && !HasBody(w)
  }

  // From a connection made anew until something more is deleted: unless a stale answer is
  // taken, exactly the visible rows that are left are handed on, in order.
  lemma {:induction false} WhatIsLeftIsDelivered(options: Options, before: seq<Step>, w: World, steps: seq<Step>,
                                                 t: World)
    requires Runs(options, START, before, w) && Idle(w) && !options.readsOn
    requires Runs(options, w, steps, t) && NoDeletes(steps) && t.pump.jumps == w.pump.jumps
    ensures t.pump.delivered ==
            w.pump.delivered + Without(Between(Visible(t.log), w.pump.cursor, t.pump.cursor), w.gone)
  {
    Reached(options, before, w);
    RunKeepsInv(options, w, steps, t);
    assert w.pump.delivered[|w.pump.delivered|..] == [];
    RunLeaves(options, w, w, steps, t);
    LastOnesAre(options, w, t);
  }

  lemma {:induction false} LastOnesAre(options: Options, w: World, t: World)
    requires Inv(options, w) && Inv(options, t) && Left(w, t) && w.pump.cursor <= t.pump.cursor
    requires t.pump.jumps == w.pump.jumps && t.pump.first == w.pump.first
    ensures t.pump.delivered ==
            w.pump.delivered + Without(Between(Visible(t.log), w.pump.cursor, t.pump.cursor), w.gone)
  {
    hide Chain, Fits, StreamInv, Visible, RowIds, Between, Without, Increasing;
    var n := |w.pump.delivered|;
    var last, due := t.pump.delivered[n..], Between(Visible(t.log), w.pump.cursor, t.pump.cursor);
    assert t.pump.delivered == w.pump.delivered + last;
    VisibleHas(t.log);
    BetweenHas(Visible(t.log), w.pump.cursor, t.pump.cursor);
    WithoutHas(due, w.gone);
    LastIncreases(w.pump.delivered, last);
    forall id
      ensures id in last <==> id in Without(due, w.gone)
    {
      assert id in t.pump.delivered <==> id in w.pump.delivered || id in last;
      assert w.pump.cursor < id ==> !Jumped(t.pump.jumps, id);
    }
    SameElements(last, Without(due, w.gone));
  }

  lemma {:induction false} LastIncreases(ids: Ids, last: Ids)
    requires Increasing(ids + last)
    ensures Increasing(last)
  {
    assert forall i :: 0 <= i < |last| ==> last[i] == (ids + last)[|ids| + i];
  }

  // --- When a connection passes over deleted rows without saying so ---

  // A run with no further deletion that takes the cursor past a visible row which was
  // never handed on, while no answer was stale.
  ghost predicate PassesOver(options: Options, w: World, steps: seq<Step>, t: World) {
    && Runs(options, w, steps, t) && NoDeletes(steps)
    && t.pump.jumps == w.pump.jumps
    && exists id :: id in Visible(t.log) && w.pump.cursor < id <= t.pump.cursor && id !in t.pump.delivered
  }

  // A visible row past the cursor is gone.
  ghost predicate Missing(w: World) {
    exists id :: id in Visible(w.log) && w.pump.cursor < id && id in w.gone
  }

  // A shell about to connect can be taken past a visible row with no stale answer if and
  // only if the server does not find its cursor stale and a visible row past it is gone.
  lemma {:induction false} SilentLossIff(options: Options, before: seq<Step>, w: World)
    requires Runs(options, START, before, w) && Idle(w) && !options.readsOn
    ensures (exists steps, t :: PassesOver(options, w, steps, t)) <==> !Stale(w, w.pump.cursor) && Missing(w)
  {
    hide Inv, Visible, Without, Between, Stale, Enabled, Apply;
    forall steps, t | PassesOver(options, w, steps, t)
      ensures !Stale(w, w.pump.cursor) && Missing(w)
    {
      OnlyThen(options, before, w, steps, t);
    }
    if !Stale(w, w.pump.cursor) && Missing(w) {
      var steps, t := CanPassOver(options, before, w);
    }
  }

  lemma {:induction false} OnlyThen(options: Options, before: seq<Step>, w: World, steps: seq<Step>, t: World)
    requires Runs(options, START, before, w) && Idle(w) && !options.readsOn
    requires PassesOver(options, w, steps, t)
    ensures !Stale(w, w.pump.cursor) && Missing(w)
  {
    hide Inv, Visible, Without, Between, Enabled, Apply, Stale;
    Reached(options, before, w);
    WhatIsLeftIsDelivered(options, before, w, steps, t);
    if Stale(w, w.pump.cursor) {
      RunIsStuck(options, w, w, steps, t);
    }
    var id :| id in Visible(t.log) && w.pump.cursor < id <= t.pump.cursor && id !in t.pump.delivered;
    NothingElseGoes(options, w, steps, t);
    LogGrows(options, w, steps, t);
    DueOrGone(options, w, t, id);
    GoneWereIssued(options, w);
  }

  lemma {:induction false} DueOrGone(options: Options, w: World, t: World, id: int)
    requires Ordered(t.log) && id in Visible(t.log) && w.pump.cursor < id <= t.pump.cursor
    requires id !in w.pump.delivered + Without(Between(Visible(t.log), w.pump.cursor, t.pump.cursor), w.gone)
    ensures id in w.gone
  {
    VisibleHas(t.log);
    BetweenHas(Visible(t.log), w.pump.cursor, t.pump.cursor);
    WithoutHas(Between(Visible(t.log), w.pump.cursor, t.pump.cursor), w.gone);
  }

  lemma {:induction false} GoneWereIssued(options: Options, w: World)
    requires Inv(options, w)
    ensures forall id :: id in w.gone ==> id <= Issued(w.log)
  {
    hide Visible, Accounted, StreamInv;
    RowsFit(w.log);
  }

  lemma {:induction false} LogGrows(options: Options, w: World, steps: seq<Step>, t: World)
    requires Inv(options, w) && Runs(options, w, steps, t) && !options.readsOn
    ensures Issued(w.log) <= Issued(t.log) && Ordered(t.log)
    ensures forall id :: id in Visible(t.log) && id <= Issued(w.log) ==> id in Visible(w.log)
    decreases |steps|
  {
    hide Visible, Accounted, StreamInv, Ordered;
    if steps != [] {
      StepKeepsInv(options, w, steps[0]);
      LogGrows(options, Apply(options, w, steps[0]), steps[1..], t);
      if steps[0].Append? {
        LaterIds(w.log, Entry(steps[0].id, steps[0].visible));
      }
    }
  }

  // Once a stale answer is due, the cursor stands until one is taken.
  ghost predicate Stuck(from: World, w: World) {
    && Idle(from) && !w.pump.cold
    && w.pump.cursor == from.pump.cursor && Stale(w, w.pump.cursor)
    && (HasBody(w) ==>
          && BodyOf(w).wire != []
          && (BodyOf(w).wire[0].Garbled? || (BodyOf(w).wire[0].Ready? && BodyOf(w).wire[0].stale)))
  }

  lemma {:induction false} StepIsStuck(options: Options, from: World, w: World, step: Step)
    requires Inv(options, w) && Stuck(from, w) && Enabled(w, step) && !step.Delete? && !options.readsOn
    requires Apply(options, w, step).pump.jumps == w.pump.jumps
    ensures Stuck(from, Apply(options, w, step))
  {
    hide Visible, RowIds, Ordered, Accounted, Latest, Fits, Chain, Behind;
    if step.Append? {
      assert (w.log + [Entry(step.id, step.visible)])[..|w.log|] == w.log;
    }
    hide Oldest;
  }

  lemma {:induction false} RunIsStuck(options: Options, from: World, w: World, steps: seq<Step>, t: World)
    requires Inv(options, w) && Stuck(from, w) && !options.readsOn
    requires Runs(options, w, steps, t) && NoDeletes(steps) && t.pump.jumps == w.pump.jumps
    ensures t.pump.cursor == from.pump.cursor
    decreases |steps|
  {
    hide Inv, Enabled, Apply, Stale;
    if steps != [] {
      assert steps[0] in steps && forall step :: step in steps[1..] ==> step in steps;
      var next := Apply(options, w, steps[0]);
      StepKeepsInv(options, w, steps[0]);
      StepGrows(options, w, steps[0]);
      RunKeepsInv(options, next, steps[1..], t);
      StepIsStuck(options, from, w, steps[0]);
      RunIsStuck(options, from, next, steps[1..], t);
    }
  }

  lemma {:induction false} RunsJoin(options: Options, from: World, steps: seq<Step>, w: World, more: seq<Step>,
                                    to: World)
    requires Runs(options, from, steps, w) && Runs(options, w, more, to)
    ensures Runs(options, from, steps + more, to)
    ensures NoDeletes(steps) && NoDeletes(more) ==> NoDeletes(steps + more)
    decreases |steps|
  {
    hide Enabled, Apply;
    if steps == [] {
      assert steps + more == more;
    } else {
      assert (steps + more)[1..] == steps[1..] + more;
      RunsJoin(options, Apply(options, from, steps[0]), steps[1..], w, more, to);
    }
  }

  lemma {:induction false} NoSteps(options: Options, from: World) returns (steps: seq<Step>, w: World)
    ensures steps == [] && w == from && Runs(options, from, steps, w)
  {
    steps, w := [], from;
  }

  // One step more.
  lemma {:induction false} Then(options: Options, from: World, steps: seq<Step>, w: World, step: Step)
    returns (longer: seq<Step>, after: World)
    requires Runs(options, from, steps, w) && Enabled(w, step)
    ensures after == Apply(options, w, step) && longer == steps + [step] && Runs(options, from, longer, after)
  {
    longer, after := steps + [step], Apply(options, w, step);
    assert [step][1..] == [];
    assert Runs(options, w, [step], after);
    hide Enabled, Apply;
    RunsJoin(options, from, steps, w, [step], after);
  }

  lemma {:induction false} NextLeft(w: World, from: nat) returns (row: nat)
    requires HasBody(w) && from < |w.log|
    requires Issued(w.log) !in w.gone && Issued(w.log) > BodyOf(w).position
    requires forall i :: 0 <= i < from ==> w.log[i].id in w.gone || w.log[i].id <= BodyOf(w).position
    ensures row < |w.log| && NextRow(w, row)
    decreases |w.log| - from
  {
    if w.log[from].id !in w.gone && w.log[from].id > BodyOf(w).position {
      row := from;
    } else {
      row := NextLeft(w, from + 1);
    }
  }

  // Nothing in flight, and the shell where the server is.
  ghost predicate Even(w: World) {
    HasBody(w) && BodyOf(w).wire == [] && BodyOf(w).position == w.pump.cursor
  }

  // The next row is read, sent and taken.
  lemma {:induction false} OneRow(options: Options, w: World, row: nat) returns (steps: seq<Step>, t: World)
    requires Even(w) && Enabled(w, SendRow(row))
    ensures Runs(options, w, steps, t) && NoDeletes(steps) && Even(t)
    ensures t.log == w.log && t.gone == w.gone && t.pump.jumps == w.pump.jumps && t.pump.cursor == w.log[row].id
  {
    hide Runs;
    steps, t := NoSteps(options, w);
    steps, t := Then(options, w, steps, t, SendRow(row));
    if w.log[row].visible {
      steps, t := Then(options, w, steps, t, Take);
    }
    steps, t := Then(options, w, steps, t, SendMark);
    steps, t := Then(options, w, steps, t, Take);
  }

  lemma {:induction false} CatchesUp(options: Options, w: World) returns (steps: seq<Step>, t: World)
    requires Inv(options, w) && !options.readsOn && Even(w) && w.log != [] && Issued(w.log) !in w.gone
    ensures Runs(options, w, steps, t) && NoDeletes(steps)
    ensures t.log == w.log && t.pump.jumps == w.pump.jumps && t.pump.cursor == Issued(w.log)
    decreases Issued(w.log) - w.pump.cursor
  {
    hide Visible, Accounted, StreamInv, RowIds;
    steps, t := [], w;
    if w.pump.cursor < Issued(w.log) {
      var row := NextLeft(w, 0);
      var first, near := OneRow(options, w, row);
      RunKeepsInv(options, w, first, near);
      var rest, end := CatchesUp(options, near);
      RunsJoin(options, w, first, near, rest, end);
      steps, t := first + rest, end;
    }
  }

  lemma {:induction false} CursorFits(options: Options, w: World)
    requires Inv(options, w)
    ensures Fits(w.log, w.pump.cursor) && 0 <= w.pump.cursor
    ensures w.pump.stream.Some? ==> w.pump.stream.value.cursor == w.pump.cursor
  {
    hide Visible, Chain, Accounted, RowIds;
  }

  // Connecting, one row more, and reading all that is left.
  lemma {:induction false} CanPassOver(options: Options, before: seq<Step>, w: World)
    returns (steps: seq<Step>, t: World)
    requires Runs(options, START, before, w) && Idle(w) && !options.readsOn
    requires !Stale(w, w.pump.cursor) && Missing(w)
    ensures PassesOver(options, w, steps, t)
  {
    hide Inv, Visible, Without, Between, Oldest, Latest;
    Reached(options, before, w);
    CursorFits(options, w);
    var a, connected := Then(options, w, [], w, if w.pump.stream.None? then Connect else Reconnect);
    var b, written := Then(options, w, a, connected, Append(Issued(w.log) + 1, true));
    var c, caught := Then(options, w, b, written, Take);
    RunKeepsInv(options, w, c, caught);
    GoneWereIssued(options, w);
    var rest, end := CatchesUp(options, caught);
    steps, t := c + rest, end;
    RunsJoin(options, w, c, caught, rest, t);
    WhatIsLeftIsDelivered(options, before, w, steps, t);
    IsPassedOver(options, w, Entry(Issued(w.log) + 1, true), t);
  }

  lemma {:induction false} IsPassedOver(options: Options, w: World, entry: Entry, t: World)
    requires Inv(options, w) && Missing(w) && Issued(w.log) < entry.id == t.pump.cursor
    requires t.log == w.log + [entry]
    requires t.pump.delivered ==
             w.pump.delivered + Without(Between(Visible(t.log), w.pump.cursor, t.pump.cursor), w.gone)
    ensures exists id :: id in Visible(t.log) && w.pump.cursor < id <= t.pump.cursor && id !in t.pump.delivered
  {
    hide Visible, StreamInv, RowIds, Increasing, Between;
    GoneWereIssued(options, w);
    LaterIds(w.log, entry);
    OrderedAdds(w.log, entry);
    VisibleHas(t.log);
    RowsFit(w.log);
    BetweenHas(Visible(t.log), w.pump.cursor, t.pump.cursor);
    WithoutHas(Between(Visible(t.log), w.pump.cursor, t.pump.cursor), w.gone);
    var id :| id in Visible(w.log) && w.pump.cursor < id && id in w.gone;
    assert id !in t.pump.delivered;
  }

  // Only rows before all that are left are gone, and one is left.
  ghost predicate GoneFromTheFront(w: World) {
    exists k :: 0 <= k < |w.log| && Cut(w, k)
  }

  ghost predicate Cut(w: World, k: nat) {
    forall i :: 0 <= i < |w.log| ==> (w.log[i].id in w.gone <==> i < k)
  }

  // Had rows gone from the front only, the answer would be silent over a lost row exactly
  // for a shell that started on an empty log: cursor 0 is never called stale.
  lemma {:induction false} FrontSilentLossIff(options: Options, before: seq<Step>, w: World)
    requires Runs(options, START, before, w) && Idle(w) && !options.readsOn && GoneFromTheFront(w)
    ensures (exists steps, t :: PassesOver(options, w, steps, t)) <==>
            w.pump.cursor == 0 && exists id :: id in Visible(w.log) && id in w.gone
  {
    hide Inv, Runs, PassesOver, Oldest;
    SilentLossIff(options, before, w);
    Reached(options, before, w);
    VisibleHas(w.log);
    CursorFits(options, w);
    var k :| 0 <= k < |w.log| && Cut(w, k);
    OldestIs(w.log, w.gone);
    assert w.log[k] in w.log && w.log[k].id in RowIds(w.log);
    forall id | id in Visible(w.log) && id in w.gone
      ensures id < Oldest(w.log, w.gone)
    {
      FrontIsOlder(w, k, id);
    }
  }

  lemma {:induction false} FrontIsOlder(w: World, k: nat, id: int)
    requires Ordered(w.log) && k < |w.log| && Cut(w, k) && id in Visible(w.log) && id in w.gone
    ensures id < Oldest(w.log, w.gone)
  {
    hide Oldest;
    VisibleHas(w.log);
    OldestIs(w.log, w.gone);
    var i :| 0 <= i < |w.log| && w.log[i] == Entry(id, true);
    assert w.log[k] in w.log && w.log[k].id in RowIds(w.log);
    var oldest :| oldest in w.log && oldest.id == Oldest(w.log, w.gone);
    var j :| 0 <= j < |w.log| && w.log[j] == oldest;
    assert i < k <= j;
  }

  const THREE: seq<Entry> := [Entry(1, true), Entry(2, true), Entry(3, true)]

  lemma {:induction false} ThreeRows()
    ensures Visible(THREE) == Between(Visible(THREE), 0, 3) == [1, 2, 3] && RowIds(THREE) == {1, 2, 3}
  {
    hide Visible, RowIds, Between;
    NoRows();
    VisibleAppends([], THREE[0]);
    VisibleAppends(THREE[..1], THREE[1]);
    VisibleAppends(THREE[..2], THREE[2]);
    RowIdsAdd([], THREE[0]);
    RowIdsAdd(THREE[..1], THREE[1]);
    RowIdsAdd(THREE[..2], THREE[2]);
    assert [] + [THREE[0]] == THREE[..1] && THREE[..1] + [THREE[1]] == THREE[..2] && THREE[..2] + [THREE[2]] == THREE;
    assert Visible(THREE) == [1, 2, 3];
    BetweenHas([1, 2, 3], 0, 3);
    SameElements(Between([1, 2, 3], 0, 3), [1, 2, 3]);
  }

  lemma {:induction false} NoRows()
    ensures Visible([]) == [] && RowIds([]) == {}
  {
  }

  // A shell starts on an empty broker, then three rows are written.
  lemma {:induction false} ThreeAreWritten(options: Options) returns (steps: seq<Step>, w: World)
    ensures Runs(options, START, steps, w) && NoDeletes(steps)
    ensures w == World(THREE, {}, Pump(false, 0, false, None, [], 0, []))
  {
    hide Runs;
    steps, w := NoSteps(options, START);
    steps, w := Then(options, START, steps, w, ReadHead);
    steps, w := Then(options, START, steps, w, Append(1, true));
    steps, w := Then(options, START, steps, w, Append(2, true));
    steps, w := Then(options, START, steps, w, Append(3, true));
  }

  // It connects only after a cleanup has deleted the first two and written its note: it is
  // handed the third alone, and the answer is not stale.
  lemma {:induction false} AFirstConnectionSkips(options: Options) returns (steps: seq<Step>, w: World)
    ensures Runs(options, START, steps, w)
    ensures w.pump.delivered == [3] && w.pump.cursor == 3 && !w.pump.stale && w.pump.jumps == []
    ensures Between(Visible(w.log), w.pump.first, w.pump.cursor) == [1, 2, 3]
  {
    hide Runs, Visible, RowIds, Between;
    ThreeRows();
    steps, w := ThreeAreWritten(options);
    steps, w := Then(options, START, steps, w, Delete({1, 2}));
    steps, w := Then(options, START, steps, w, Append(4, true));
    VisibleAppends(THREE, Entry(4, true));
    BetweenGrows([1, 2, 3], 4, 0, 3);
    steps, w := Then(options, START, steps, w, Connect);
    steps, w := Then(options, START, steps, w, Take);
    steps, w := Then(options, START, steps, w, SendRow(2));
    steps, w := Then(options, START, steps, w, Take);
  }

  // A reader that kept its stream after an unreadable block would lose an event for good,
  // with every row still there: it is the pump opening a new stream that keeps the promise.
  lemma {:induction false} ReadingOnLoses(options: Options) returns (steps: seq<Step>, w: World)
    requires options.readsOn
    ensures Runs(options, START, steps, w) && NoDeletes(steps)
    ensures w.pump.delivered == [2, 3] && w.pump.cursor == 3 && !w.pump.stale && w.pump.jumps == []
    ensures Between(Visible(w.log), w.pump.first, w.pump.cursor) == [1, 2, 3]
  {
    hide Runs, Visible, RowIds, Between;
    ThreeRows();
    steps, w := ThreeAreWritten(options);
    steps, w := Then(options, START, steps, w, Connect);
    steps, w := Then(options, START, steps, w, Take);
    steps, w := Then(options, START, steps, w, SendRow(0));
    steps, w := Then(options, START, steps, w, Corrupt(0));
    steps, w := Then(options, START, steps, w, Take);
    steps, w := Then(options, START, steps, w, SendRow(1));
    steps, w := Then(options, START, steps, w, Take);
    steps, w := Then(options, START, steps, w, SendRow(2));
    steps, w := Then(options, START, steps, w, Take);
  }
}
