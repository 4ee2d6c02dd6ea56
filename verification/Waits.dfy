// How long the event stream waits before it connects again, and when the shell gives one
// stream up for another (rust/crates/oga-client/src/loopback.rs and bridge.rs).
module Waits {
  import opened Basics
  import opened EventStream

  function Pow2(k: nat): nat {
    if k == 0 then 1 else 2 * Pow2(k - 1)
  }

  function Capped(options: Options, wait: nat): nat {
    if wait <= options.maxBackoff then wait else options.maxBackoff
  }

  // Doubled so many times, up to the limit.
  function WaitAfter(options: Options, connections: nat): nat {
    Capped(options, options.initialBackoff * Pow2(connections))
  }

  lemma {:induction false} OnceMore(options: Options, k: nat)
    ensures NextBackoff(options, WaitAfter(options, k)) == WaitAfter(options, k + 1)
  {
    var wait := options.initialBackoff * Pow2(k);
    assert options.initialBackoff * Pow2(k + 1) == 2 * wait;
  }

  // How many times a stream connected since it was told that the server is ready.
  function Connections(k: nat, w: World, step: Step): nat
    requires Enabled(w, step)
  {
    match step
    case Connect => 1
    case Reconnect => k + 1
    case Take => if BodyOf(w).wire[0].Ready? then 0 else k
    case _ => k
  }

  ghost function ConnectionsOf(options: Options, k: nat, w: World, steps: seq<Step>, to: World): nat
    requires Runs(options, w, steps, to)
    decreases |steps|
  {
    if steps == [] then k
    else ConnectionsOf(options, Connections(k, w, steps[0]), Apply(options, w, steps[0]), steps[1..], to)
  }

  ghost predicate WaitsFor(options: Options, k: nat, w: World) {
    w.pump.stream.Some? ==> w.pump.stream.value.backoff == WaitAfter(options, k)
  }

  lemma {:induction false} StepWaits(options: Options, k: nat, w: World, step: Step)
    requires WaitsFor(options, k, w) && Enabled(w, step)
    ensures WaitsFor(options, Connections(k, w, step), Apply(options, w, step))
  {
    hide Pow2, Capped, Answer, NextRow;
    assert WaitAfter(options, 0) == FirstBackoff(options) by {
      FirstWait(options);
    }
    OnceMore(options, 0);
    OnceMore(options, k);
  }

  lemma {:induction false} FirstWait(options: Options)
    ensures WaitAfter(options, 0) == FirstBackoff(options)
  {
    assert options.initialBackoff * Pow2(0) == options.initialBackoff;
  }

  // Over every run, the wait ahead of the next attempt is the first wait doubled once for each
  // connection since the server last said it was ready, and never past the limit.
  lemma {:induction false} WaitsDouble(options: Options, k: nat, from: World, steps: seq<Step>, to: World)
    requires Runs(options, from, steps, to) && WaitsFor(options, k, from)
    ensures WaitsFor(options, ConnectionsOf(options, k, from, steps, to), to)
    decreases |steps|
  {
    hide Enabled, Apply, WaitsFor, Connections;
    if steps != [] {
      StepWaits(options, k, from, steps[0]);
      WaitsDouble(options, Connections(k, from, steps[0]), Apply(options, from, steps[0]), steps[1..], to);
    }
  }

  // What the shell can do next. It reads the head once, ahead of everything; with no stream it
  // opens one at its cursor, or fails to; a stream without a body connects again or is given up.
  lemma {:induction false} WhatCanHappen(w: World)
    ensures Enabled(w, ReadHead) <==> w.pump.cold
    ensures Enabled(w, Connect) <==> !w.pump.cold && w.pump.stream == None
    ensures Enabled(w, ConnectFails) <==> Enabled(w, Connect)
    ensures Enabled(w, Reconnect) <==> w.pump.stream.Some? && w.pump.stream.value.body == None
    ensures Enabled(w, ReconnectFails) <==> Enabled(w, Reconnect)
    ensures Enabled(w, Drop) <==> w.pump.stream.Some? && w.pump.stream.value.body.Some?
    ensures Enabled(w, Take) <==> Enabled(w, Drop) && |w.pump.stream.value.body.value.wire| > 0
    ensures forall rows :: Enabled(w, Delete(rows)) <==> rows <= RowIds(w.log)
  {
  }

  // A stream comes with a connection to the shell's own cursor and goes only when it cannot
  // connect again, or with a block that cannot be read, unless the reader reads on. Losing the
  // body leaves the stream, which connects again at its own cursor.
  lemma {:induction false} WhenAStreamGoes(options: Options, w: World, step: Step)
    requires Enabled(w, step)
    ensures var t := Apply(options, w, step);
            && (w.pump.stream.None? && t.pump.stream.Some? <==> step == Connect)
            && (w.pump.stream.Some? && t.pump.stream.None? <==>
                  || step == ReconnectFails
                  || (step == Take && !options.readsOn && w.pump.stream.value.body.value.wire[0] == Garbled))
            && (step == Drop ==> t.pump == w.pump.(stream := Some(w.pump.stream.value.(body := None))))
            && (step == Connect ==> t.pump.stream.value.cursor == w.pump.cursor)
            && (step == Reconnect ==> t.pump.stream.value.cursor == w.pump.stream.value.cursor)
            && (step == Take && t.pump.stream.Some? ==>
                  && t.pump.stream.value.body.Some?
                  && t.pump.stream.value.body.value.wire == w.pump.stream.value.body.value.wire[1..])
  {
    hide NextRow, Stale, Latest, Oldest;
  }

  // The server finds a cursor stale exactly when it is past zero and behind every row left, of
  // which there is one. It then starts at the newest row left, and otherwise at the cursor.
  lemma {:induction false} StaleIff(w: World, after: int)
    requires Ordered(w.log)
    ensures var left := set id | id in RowIds(w.log) && id !in w.gone;
            var stale := after > 0 && left != {} && forall id :: id in left ==> after < id;
            && (Stale(w, after) <==> stale)
            && Answer(w, after).wire == [Ready(Answer(w, after).position, stale)]
            && (!stale ==> Answer(w, after).position == after)
            && (stale ==> Answer(w, after).position in left &&
                          forall id :: id in left ==> id <= Answer(w, after).position)
  {
    hide RowIds;
    OldestIs(w.log, w.gone);
    LatestIs(w.log, w.gone);
    RowsFit(w.log);
    var left := set id | id in RowIds(w.log) && id !in w.gone;
    if RowIds(w.log) <= w.gone {
      assert left == {};
    } else {
      assert Oldest(w.log, w.gone) in left && Latest(w.log, w.gone) in left;
    }
  }
}
