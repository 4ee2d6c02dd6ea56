// What the batcher's batches say of the cursor (rust/apps/oga-desktop/src/bridge.rs), told
// from what arrived, what was thrown away and what went out.
module BatchCursors {
  import opened Basics
  import opened Batcher

  // The cursor of the batch ahead of the k-th.
  function Previous(emitted: seq<Batch>, k: nat): int
    requires k <= |emitted|
  {
    if k == 0 then 0 else emitted[k - 1].cursor
  }

  function LastCursor(pointers: seq<Pointer>): int {
    if pointers == [] then 0 else pointers[|pointers| - 1].cursor
  }

  // The pointer had arrived by the k-th batch.
  predicate CameBefore(s: State, pointer: Pointer, k: nat) {
    && pointer.index < |s.arrived| && pointer.index < |s.emittedBefore|
    && s.arrived[pointer.index] == pointer.cursor
    && s.emittedBefore[pointer.index] <= k
  }

  // A pointer with this cursor had been refused by then.
  ghost predicate WasRefused(s: State, cursor: int, k: nat) {
    exists index :: index in s.refused && CameBefore(s, Pointer(index, cursor), k)
  }

  // A batch's cursor is exactly the largest of the one before, its last pointer's and, after an
  // overflow, the one the cell held, which a refused pointer brought.
  ghost predicate Exact(s: State, k: nat)
    requires k < |s.emitted| == |s.reasons|
  {
    var batch := s.emitted[k];
    match s.reasons[k]
    case Paced =>
      && !batch.stale
      && batch.pointers != []
      && batch.cursor == Max(Previous(s.emitted, k), LastCursor(batch.pointers))
      && forall pointer :: pointer in batch.pointers ==> CameBefore(s, pointer, k)
    case Overflow(value, waiting) =>
      && batch.stale
      && batch.pointers == []
      && batch.cursor == Max(Max(Previous(s.emitted, k), LastCursor(waiting)), value)
      && WasRefused(s, value, k)
      && forall pointer :: pointer in waiting ==> CameBefore(s, pointer, k) && pointer.index in s.dropped
  }

  ghost predicate ArrivedInOrder(s: State) {
    && |s.emittedBefore| == |s.arrived|
    && (forall i :: 0 <= i < |s.arrived| ==> s.arrived[i] > 0 && s.emittedBefore[i] <= |s.emitted|)
    && (forall i, j :: 0 <= i < j < |s.arrived| ==> s.arrived[i] <= s.arrived[j])
  }

  ghost predicate CellInv(s: State) {
    && s.refused <= s.dropped
    && (s.cell != 0 ==> WasRefused(s, s.cell, |s.emitted|))
    && (s.consumer.Draining? ==> WasRefused(s, s.consumer.overflow, |s.emitted|))
    && (s.producer.Recording? ==> WasRefused(s, s.producer.value, |s.emitted|))
  }

  ghost predicate Counted(s: State) {
    && |s.reasons| == |s.emitted|
    && s.cursor == Max(Previous(s.emitted, |s.emitted|), LastCursor(s.batch))
    && s.cursor >= 0
  }

  ghost predicate CursorInv(s: State) {
    Counted(s) && forall k :: 0 <= k < |s.emitted| ==> Exact(s, k)
  }

  lemma {:induction false} ArrivalsStayInOrder(s: State, step: Step)
    requires ArrivedInOrder(s) && Enabled(s, step)
    ensures ArrivedInOrder(Apply(s, step))
  {
  }

  // What was seen to arrive stays so.
  lemma {:induction false} SeenStays(s: State, step: Step, pointer: Pointer, k: nat)
    requires Enabled(s, step) && CameBefore(s, pointer, k)
    ensures CameBefore(Apply(s, step), pointer, k)
  {
  }

  lemma {:induction false} RefusedStays(s: State, step: Step, cursor: int, k: nat, later: nat)
    requires Enabled(s, step) && WasRefused(s, cursor, k) && k <= later
    ensures WasRefused(Apply(s, step), cursor, later)
  {
    var index :| index in s.refused && CameBefore(s, Pointer(index, cursor), k);
    var t := Apply(s, step);
    SeenStays(s, step, Pointer(index, cursor), k);
    assert index in t.refused && CameBefore(t, Pointer(index, cursor), later);
  }

  lemma {:induction false} StepKeepsCell(s: State, step: Step)
    requires CellInv(s) && ArrivedInOrder(s) && Enabled(s, step)
    ensures CellInv(Apply(s, step))
  {
    var t := Apply(s, step);
    assert |s.emitted| <= |t.emitted|;
    hide WasRefused, Indices;
    if s.cell != 0 {
      RefusedStays(s, step, s.cell, |s.emitted|, |t.emitted|);
    }
    if s.consumer.Draining? {
      RefusedStays(s, step, s.consumer.overflow, |s.emitted|, |t.emitted|);
    }
    if s.producer.Recording? {
      RefusedStays(s, step, s.producer.value, |s.emitted|, |t.emitted|);
    }
    if step.Arrive? && t.producer.Recording? {
      NewlyRefused(s, step.cursor);
    }
  }

  lemma {:induction false} NewlyRefused(s: State, cursor: int)
    requires ArrivedInOrder(s) && Enabled(s, Arrive(cursor)) && Apply(s, Arrive(cursor)).producer.Recording?
    ensures WasRefused(Apply(s, Arrive(cursor)), cursor, |s.emitted|)
  {
    var t := Apply(s, Arrive(cursor));
    assert |s.arrived| in t.refused && CameBefore(t, Pointer(|s.arrived|, cursor), |s.emitted|);
  }

  // What is waiting arrived in order, each with the cursor it came with.
  lemma {:induction false} WaitingCame(s: State, pointer: Pointer)
    requires FateInv(s) && ArrivedInOrder(s) && (pointer in s.batch || pointer in s.channel)
    ensures CameBefore(s, pointer, |s.emitted|)
  {
    hide Told, InOrder, Indices;
    assert pointer in Kept(s);
  }

  lemma {:induction false} NextIsNotBehind(s: State)
    requires FateInv(s) && ArrivedInOrder(s) && s.batch != [] && s.channel != []
    ensures s.batch[|s.batch| - 1].cursor <= s.channel[0].cursor
  {
    hide Told, Indices;
    var kept, told := Kept(s), |Told(s.emitted)|;
    var i, j := told + |s.batch| - 1, told + |s.batch|;
    assert kept[i] == s.batch[|s.batch| - 1] && kept[j] == s.channel[0];
    assert kept[i] in kept && kept[j] in kept;
  }

  lemma {:induction false} ExactStays(s: State, step: Step, k: nat)
    requires CursorInv(s) && Enabled(s, step) && k < |s.emitted|
    ensures k < |Apply(s, step).emitted| == |Apply(s, step).reasons|
    ensures Exact(Apply(s, step), k)
  {
    var t := Apply(s, step);
    assert Exact(s, k);
    assert t.emitted[..|s.emitted|] == s.emitted && t.reasons[..|s.reasons|] == s.reasons;
    assert s.dropped <= t.dropped;
    hide WasRefused, CameBefore, Indices;
    assert t.emitted[k] == s.emitted[k] && t.reasons[k] == s.reasons[k];
    assert Previous(t.emitted, k) == Previous(s.emitted, k);
    forall pointer | CameBefore(s, pointer, k)
      ensures CameBefore(t, pointer, k)
    {
      SeenStays(s, step, pointer, k);
    }
    if s.reasons[k].Overflow? {
      RefusedStays(s, step, s.reasons[k].value, k, k);
    }
  }

  lemma {:induction false} CursorIsCounted(s: State, step: Step)
    requires Counted(s) && Inv(s) && ArrivedInOrder(s) && Enabled(s, step)
    ensures Counted(Apply(s, step))
  {
    hide FateInv, Indices;
    if step.Receive? {
      WaitingCame(s, s.channel[0]);
      if s.batch != [] {
        NextIsNotBehind(s);
      }
    }
  }

  lemma {:induction false} WaitingCameBefore(s: State, step: Step)
    requires Inv(s) && ArrivedInOrder(s) && Enabled(s, step)
    ensures forall pointer :: pointer in s.batch || pointer in s.channel ==>
              CameBefore(Apply(s, step), pointer, |s.emitted|)
  {
    hide FateInv, ArrivedInOrder, Apply, Enabled, CameBefore;
    forall pointer | pointer in s.batch || pointer in s.channel
      ensures CameBefore(Apply(s, step), pointer, |s.emitted|)
    {
      WaitingCame(s, pointer);
      SeenStays(s, step, pointer, |s.emitted|);
    }
  }

  lemma {:induction false} PacedIsExact(s: State, step: Step)
    requires Counted(s) && Inv(s) && ArrivedInOrder(s) && Enabled(s, step)
    requires step == Timeout || (step == Receive && |Apply(s, step).emitted| > |s.emitted|)
    ensures |Apply(s, step).emitted| == |Apply(s, step).reasons| == |s.emitted| + 1
    ensures Exact(Apply(s, step), |s.emitted|)
  {
    hide FateInv, ArrivedInOrder, CameBefore, WasRefused, Indices;
    WaitingCameBefore(s, step);
    if step.Receive? && s.batch != [] {
      NextIsNotBehind(s);
    }
    assert Previous(Apply(s, step).emitted, |s.emitted|) == Previous(s.emitted, |s.emitted|);
  }

  lemma {:induction false} StaleIsExact(s: State)
    requires Counted(s) && CellInv(s) && Inv(s) && ArrivedInOrder(s) && Enabled(s, EmitStale)
    ensures |Apply(s, EmitStale).emitted| == |Apply(s, EmitStale).reasons| == |s.emitted| + 1
    ensures Exact(Apply(s, EmitStale), |s.emitted|)
  {
    hide FateInv, ArrivedInOrder, BatchesInv, CameBefore, WasRefused;
    WaitingCameBefore(s, EmitStale);
    RefusedStays(s, EmitStale, s.consumer.overflow, |s.emitted|, |s.emitted|);
    assert Previous(Apply(s, EmitStale).emitted, |s.emitted|) == Previous(s.emitted, |s.emitted|);
  }

  lemma {:induction false} NewIsExact(s: State, step: Step)
    requires Counted(s) && CellInv(s) && Inv(s) && ArrivedInOrder(s) && Enabled(s, step)
    requires |Apply(s, step).emitted| > |s.emitted|
    ensures |Apply(s, step).emitted| == |Apply(s, step).reasons| == |s.emitted| + 1
    ensures Exact(Apply(s, step), |s.emitted|)
  {
    hide FateInv, ArrivedInOrder, BatchesInv, Exact, CellInv, Counted;
    if step.EmitStale? {
      StaleIsExact(s);
    } else {
      PacedIsExact(s, step);
    }
  }

  lemma {:induction false} StepKeepsCursor(s: State, step: Step)
    requires CursorInv(s) && CellInv(s) && Inv(s) && ArrivedInOrder(s) && Enabled(s, step)
    ensures CursorInv(Apply(s, step))
  {
    hide Exact, CellInv, Inv, ArrivedInOrder, Apply, Enabled;
    CursorIsCounted(s, step);
    var t := Apply(s, step);
    forall k | 0 <= k < |t.emitted|
      ensures Exact(t, k)
    {
      if k < |s.emitted| {
        ExactStays(s, step, k);
      } else {
        NewIsExact(s, step);
      }
    }
  }

  ghost predicate AllInv(s: State) {
    Inv(s) && ArrivedInOrder(s) && CellInv(s) && CursorInv(s)
  }

  lemma {:induction false} RunKeepsCursors(from: State, steps: seq<Step>, to: State)
    requires AllInv(from) && Runs(from, steps, to)
    ensures AllInv(to)
    decreases |steps|
  {
    hide Inv, ArrivedInOrder, CellInv, CursorInv, Apply, Enabled;
    if steps != [] {
      RunKeepsInv(from, steps[..1], Apply(from, steps[0])) by {
        Then(from, [], from, steps[0]);
        assert [] + [steps[0]] == steps[..1];
      }
      ArrivalsStayInOrder(from, steps[0]);
      StepKeepsCell(from, steps[0]);
      StepKeepsCursor(from, steps[0]);
      RunKeepsCursors(Apply(from, steps[0]), steps[1..], to);
    }
  }

  lemma {:induction false} ReachableAllInv(steps: seq<Step>, s: State)
    requires Runs(START, steps, s)
    ensures AllInv(s)
  {
    ReachableInv([], START);
    hide Inv, Apply, Enabled;
    RunKeepsCursors(START, steps, s);
  }

  // Over every run, each batch carries exactly the cursor it should.
  lemma {:induction false} CursorsAreExact(steps: seq<Step>, s: State)
    requires Runs(START, steps, s)
    ensures |s.reasons| == |s.emitted|
    ensures forall k :: 0 <= k < |s.emitted| ==> Exact(s, k)
    ensures forall index :: index in s.refused ==> index in s.dropped
  {
    hide Exact, Inv, ArrivedInOrder, Runs;
    ReachableAllInv(steps, s);
  }

  ghost predicate HadArrived(s: State, cursor: int, k: nat) {
    exists index :: CameBefore(s, Pointer(index, cursor), k)
  }

  // The larger of two cursors is one of the two.
  lemma {:induction false} LastHadArrived(s: State, pointers: seq<Pointer>, k: nat)
    requires pointers != [] && forall pointer :: pointer in pointers ==> CameBefore(s, pointer, k)
    ensures HadArrived(s, LastCursor(pointers), k)
  {
    hide CameBefore;
    var last := pointers[|pointers| - 1];
    assert last in pointers && last == Pointer(last.index, last.cursor);
  }

  // No batch says a cursor that nobody sent: it is that of a pointer that had arrived.
  lemma {:induction false} CursorsHadArrived(steps: seq<Step>, s: State, k: nat)
    requires Runs(START, steps, s) && k < |s.emitted|
    ensures s.emitted[k].cursor > 0 && HadArrived(s, s.emitted[k].cursor, k)
  {
    hide Apply, Enabled, Runs, Inv;
    ReachableAllInv(steps, s);
    assert Exact(s, k);
    var cursor := s.emitted[k].cursor;
    if k > 0 && cursor == s.emitted[k - 1].cursor {
      CursorsHadArrived(steps, s, k - 1);
      var index :| CameBefore(s, Pointer(index, cursor), k - 1);
      assert CameBefore(s, Pointer(index, cursor), k);
    } else if s.reasons[k].Paced? {
      LastHadArrived(s, s.emitted[k].pointers, k);
    } else {
      var value, waiting := s.reasons[k].value, s.reasons[k].waiting;
      var index :| index in s.refused && CameBefore(s, Pointer(index, value), k);
      if waiting != [] {
        LastHadArrived(s, waiting, k);
      }
    }
  }

  // A stale batch with at least the cursor went out since the k-th batch.
  ghost predicate WasReported(s: State, cursor: int, k: nat) {
    exists later :: k <= later < |s.emitted| && s.emitted[later].stale && s.emitted[later].cursor >= cursor
  }

  // One is bound to come: the cell holds as much, or the batcher does, or the callback is
  // about to write it.
  predicate ToBeReported(s: State, cursor: int) {
    || s.cell >= cursor
    || (s.consumer.Draining? && s.consumer.overflow >= cursor)
    || (s.producer.Recording? && s.producer.value >= cursor &&
        (s.producer.seen.Some? ==> s.producer.seen.value < s.producer.value))
  }

  ghost predicate ReportInv(s: State) {
    && |s.emittedBefore| == |s.arrived|
    && (forall index :: 0 <= index < |s.emittedBefore| ==> s.emittedBefore[index] <= |s.emitted|)
    && forall index :: index in s.refused ==>
         && index < |s.arrived|
         && (WasReported(s, s.arrived[index], s.emittedBefore[index]) || ToBeReported(s, s.arrived[index]))
  }

  lemma {:induction false} ReportStays(s: State, step: Step, cursor: int, k: nat)
    requires Enabled(s, step) && k <= |s.emitted|
    requires WasReported(s, cursor, k) || ToBeReported(s, cursor)
    ensures WasReported(Apply(s, step), cursor, k) || ToBeReported(Apply(s, step), cursor)
  {
    hide Indices;
    var t := Apply(s, step);
    if later :| k <= later < |s.emitted| && s.emitted[later].stale && s.emitted[later].cursor >= cursor {
      assert t.emitted[later] == s.emitted[later];
    } else if step.EmitStale? && s.consumer.overflow >= cursor {
      assert t.emitted[|s.emitted|].stale && t.emitted[|s.emitted|].cursor >= cursor;
    }
  }

  lemma {:induction false} StepKeepsReports(s: State, step: Step)
    requires ReportInv(s) && Enabled(s, step)
    ensures ReportInv(Apply(s, step))
  {
    var t := Apply(s, step);
    forall index | index in t.refused
      ensures index < |t.arrived| && index < |t.emittedBefore|
      ensures WasReported(t, t.arrived[index], t.emittedBefore[index]) || ToBeReported(t, t.arrived[index])
    {
      if index in s.refused {
        ReportStays(s, step, s.arrived[index], s.emittedBefore[index]);
      }
    }
  }

  function Stales(emitted: seq<Batch>): nat {
    if emitted == [] then 0
    else Stales(emitted[..|emitted| - 1]) + if emitted[|emitted| - 1].stale then 1 else 0
  }

  // The overflows that are still on their way to a batch.
  function UnderWay(s: State): nat {
    (if s.cell > 0 then 1 else 0) + (if s.consumer.Draining? then 1 else 0) +
    (if s.producer.Recording? then 1 else 0)
  }

  ghost predicate CountInv(s: State) {
    && Stales(s.emitted) + UnderWay(s) <= |s.refused|
    && forall index :: index in s.refused ==> index < |s.arrived|
  }

  lemma {:induction false} StepKeepsCount(s: State, step: Step)
    requires CountInv(s) && Enabled(s, step)
    ensures CountInv(Apply(s, step))
  {
    var t := Apply(s, step);
    if |t.emitted| > |s.emitted| {
      assert t.emitted[..|t.emitted| - 1] == s.emitted;
    }
    if step.Arrive? && t.producer.Recording? {
      assert |s.arrived| !in s.refused && |t.refused| == |s.refused| + 1;
    }
  }

  lemma {:induction false} RunKeepsReports(from: State, steps: seq<Step>, to: State)
    requires ReportInv(from) && CountInv(from) && Runs(from, steps, to)
    ensures ReportInv(to) && CountInv(to)
    decreases |steps|
  {
    hide ReportInv, CountInv, Apply, Enabled;
    if steps != [] {
      StepKeepsReports(from, steps[0]);
      StepKeepsCount(from, steps[0]);
      RunKeepsReports(Apply(from, steps[0]), steps[1..], to);
    }
  }

  // Over every run, the cursor of each pointer the channel had no room for is reported: a stale
  // batch with at least that cursor went out after it arrived, or is bound to. And no more
  // stale batches go out than pointers were refused.
  lemma {:induction false} RefusalsAreReported(steps: seq<Step>, s: State)
    requires Runs(START, steps, s)
    ensures |s.emittedBefore| == |s.arrived| && Stales(s.emitted) + UnderWay(s) <= |s.refused|
    ensures forall index :: index in s.refused ==>
              && index < |s.arrived|
              && (|| WasReported(s, s.arrived[index], s.emittedBefore[index])
                  || ToBeReported(s, s.arrived[index]))
  {
    hide Apply, Enabled, Runs, WasReported, ToBeReported;
    assert Stales(START.emitted) == 0;
    RunKeepsReports(START, steps, s);
  }

  // What `record_overflow` leaves when nobody else touches the cell: the larger of the two.
  lemma {:induction false} AloneTheLargerStays(s: State)
    requires Enabled(s, Load)
    ensures Enabled(Apply(s, Load), Exchange)
    ensures var t := Apply(Apply(s, Load), Exchange);
            t == s.(producer := Resting, cell := if s.cell < s.producer.value then s.producer.value else s.cell)
  {
  }

  // When the cell changed in between, or the exchange failed for no reason, nothing is written
  // and what is there now is looked at: the loop goes on exactly while what it saw is less.
  lemma {:induction false} OtherwiseItLooksAgain(s: State)
    requires s.producer.Recording? && s.producer.seen.Some?
    ensures Enabled(s, Exchange) && (Enabled(s, ExchangeFails) <==> s.producer.seen.value < s.producer.value)
    ensures Apply(s, Exchange).producer.Recording? <==>
              s.producer.seen.value < s.producer.value && s.cell != s.producer.seen.value
    ensures Apply(s, Exchange).producer.Recording? ==>
              Apply(s, Exchange) == s.(producer := Recording(s.producer.value, Some(s.cell)))
    ensures Enabled(s, ExchangeFails) ==>
              Apply(s, ExchangeFails) == s.(producer := Recording(s.producer.value, Some(s.cell)))
  {
  }

  // A batch goes out exactly on its time, with its hundredth pointer, or after an overflow, and
  // a pointer is refused exactly when 1024 are waiting.
  lemma {:induction false} WhenABatchGoes(s: State, step: Step)
    requires BatchesInv(s) && Enabled(s, step)
    ensures var t := Apply(s, step);
            && (t.emitted == s.emitted <==>
                  step != Timeout && step != EmitStale && !(step == Receive && |s.batch| == 99))
            && (t.emitted != s.emitted ==> |t.emitted| == |s.emitted| + 1 && t.emitted[..|s.emitted|] == s.emitted)
            && (t.refused != s.refused ==> step.Arrive? && |s.channel| >= 1024)
            && (step.Arrive? && |s.channel| >= 1024 ==>
                  t.producer == Recording(step.cursor, None) && |s.arrived| in t.refused)
            && (step.Arrive? && |s.channel| < 1024 ==>
                  t.channel == s.channel + [Pointer(|s.arrived|, step.cursor)] && t.producer == Resting)
  {
  }

  // The batcher's round: it sleeps exactly after a batch that went out on time or full, drains
  // exactly what the cell holds, and otherwise comes back to look at the cell.
  lemma {:induction false} TheRound(s: State, step: Step)
    requires Enabled(s, step)
    ensures var t := Apply(s, step);
            && (t.consumer.Sleeping? && !s.consumer.Sleeping? <==>
                  |t.emitted| > |s.emitted| && !t.emitted[|s.emitted|].stale)
            && (t.consumer.Receiving? && !s.consumer.Receiving? <==> step == Swap && s.cell <= 0)
            && (t.consumer.Draining? && !s.consumer.Draining? <==> step == Swap && s.cell > 0)
            && (step == Swap ==> t.cell == 0 && (s.cell > 0 ==> t.consumer == Draining(s.cell)))
            && (t.consumer.Top? && !s.consumer.Top? <==>
                  || step == Wake
                  || step == EmitStale
                  || (step == Receive && t.emitted == s.emitted))
  {
  }

  // --- A stale batch behind what it threw away ---

  // The batcher can drain its channel while the callback stands still.
  lemma {:induction false} DrainsAll(s: State) returns (steps: seq<Step>, t: State)
    requires s.consumer.Draining?
    ensures Runs(s, steps, t) && t == s.(channel := [], dropped := t.dropped)
    ensures s.dropped <= t.dropped && forall pointer :: pointer in s.channel ==> pointer.index in t.dropped
    decreases |s.channel|
  {
    if s.channel == [] {
      steps, t := [], s;
    } else {
      var next := Apply(s, DrainOne);
      var rest;
      rest, t := DrainsAll(next);
      Then(s, [], s, DrainOne);
      RunsOn(s, [] + [DrainOne], next, rest, t);
      steps := [] + [DrainOne] + rest;
      assert forall pointer :: pointer in s.channel ==> pointer == s.channel[0] || pointer in next.channel;
    }
  }

  // It can happen: a pointer that arrives during a drain is thrown away with the rest, and the
  // stale batch that tells of the overflow has a smaller cursor than it.
  lemma {:induction false} AStaleBatchCanBeBehind() returns (steps: seq<Step>, s: State)
    ensures Runs(START, steps, s)
    ensures |s.emitted| == 1 && s.emitted[0].stale && s.emitted[0].cursor == 1
    ensures 1025 in s.dropped && |s.arrived| == 1026 && s.arrived[1025] == 2
    ensures s.channel == [] && s.cell == 0 && s.producer == Resting
  {
    var full;
    steps, full := ADrainBegins();
    var first := Apply(full, DrainOne);
    Then(START, steps, full, DrainOne);
    var late := Apply(first, Arrive(2));
    Then(START, steps + [DrainOne], first, Arrive(2));
    steps := steps + [DrainOne] + [Arrive(2)];
    assert late.channel[|late.channel| - 1] == Pointer(1025, 2) && Pointer(1025, 2) in late.channel;
    var rest, dry := DrainsAll(late);
    RunsOn(START, steps, late, rest, dry);
    Then(START, steps + rest, dry, EmitStale);
    steps, s := steps + rest + [EmitStale], Apply(dry, EmitStale);
  }

  lemma {:induction false} ADrainBegins() returns (steps: seq<Step>, s: State)
    ensures Runs(START, steps, s) && s.consumer == Draining(1) && s.producer == Resting && s.cell == 0
    ensures |s.channel| == 1024 && |s.arrived| == 1025 && s.arrived[1024] == 1
    ensures s.emitted == [] && s.batch == [] && s.cursor == 0
  {
    steps := Fill(1024);
    var a := Apply(Full(1024), Arrive(1));
    Then(START, steps, Full(1024), Arrive(1));
    var b := Apply(a, Load);
    Then(START, steps + [Arrive(1)], a, Load);
    var c := Apply(b, Exchange);
    Then(START, steps + [Arrive(1)] + [Load], b, Exchange);
    s := Apply(c, Swap);
    Then(START, steps + [Arrive(1)] + [Load] + [Exchange], c, Swap);
    steps := steps + [Arrive(1)] + [Load] + [Exchange] + [Swap];
  }
}
