// The desktop shell's batcher (rust/apps/oga-desktop/src/bridge.rs): the stream's callback
// puts pointers in a bounded channel, a task empties it into paced batches, and an atomic
// cell remembers that something did not fit. Each step is one atomic action of either side.
module Batcher {
  import opened Basics

  const CAPACITY: nat := 1_024
  const MAX_BATCH: nat := 100

  // A pointer by its place in the order of arrival, with its cursor.
  datatype Pointer = Pointer(index: nat, cursor: int)

  datatype Batch = Batch(cursor: int, stale: bool, pointers: seq<Pointer>)

  // The callback: at rest, or in the compare-exchange loop of `record_overflow`, having
  // read the cell or not yet.
  datatype Producer = Resting | Recording(value: int, seen: Option<int>)

  // What was behind a batch: its time or its size, or an overflow with the cursor the cell
  // held and the pointers that were waiting.
  datatype Reason = Paced | Overflow(value: int, waiting: seq<Pointer>)

  datatype Consumer =
    | Top
    | Draining(overflow: int)
    | Receiving
    | Sleeping

  datatype State = State(
    arrived: seq<int>,          // the cursors of every pointer, in order of arrival
    emittedBefore: seq<nat>,    // how many batches had been emitted when each arrived
    channel: seq<Pointer>,
    cell: int,                  // the overflow cell; 0 is empty
    producer: Producer,
    consumer: Consumer,
    batch: seq<Pointer>,
    cursor: int,
    deadline: bool,
    emitted: seq<Batch>,
    reasons: seq<Reason>,       // one for each batch
    dropped: set<nat>,          // the pointers that were thrown away
    refused: set<nat>)          // and those of them that the channel had no room for

  const START := State([], [], [], 0, Resting, Top, [], 0, false, [], [], {}, {})

  datatype Step =
    | Arrive(cursor: int)
    | Load
    | Exchange
    | ExchangeFails
    | Swap
    | DrainOne
    | EmitStale
    | Receive
    | Timeout
    | Wake

  function Latest(arrived: seq<int>): int {
    if arrived == [] then 0 else arrived[|arrived| - 1]
  }

  predicate Enabled(s: State, step: Step) {
    match step
    // The stream hands pointers over in order, and its log starts at 1.
    case Arrive(cursor) => s.producer.Resting? && cursor > 0 && cursor >= Latest(s.arrived)
    case Load => s.producer.Recording? && s.producer.seen.None?
    case Exchange => s.producer.Recording? && s.producer.seen.Some?
    case ExchangeFails => s.producer.Recording? && s.producer.seen.Some? && s.producer.seen.value < s.producer.value
    case Swap => s.consumer.Top?
    case DrainOne => s.consumer.Draining? && s.channel != []
    case EmitStale => s.consumer.Draining? && s.channel == []
    case Receive => s.consumer.Receiving? && s.channel != []
    case Timeout => s.consumer.Receiving? && s.deadline
    case Wake => s.consumer.Sleeping?
  }

  function Indices(pointers: seq<Pointer>): set<nat> {
    set pointer | pointer in pointers :: pointer.index
  }

  function Flushed(s: State): State {
    s.(emitted := s.emitted + [Batch(s.cursor, false, s.batch)], reasons := s.reasons + [Paced],
       batch := [], deadline := false, consumer := Sleeping)
  }

  function Apply(s: State, step: Step): State
    requires Enabled(s, step)
  {
    match step
    case Arrive(cursor) =>
      var index := |s.arrived|;
      var t := s.(arrived := s.arrived + [cursor], emittedBefore := s.emittedBefore + [|s.emitted|]);
      if |s.channel| < CAPACITY then t.(channel := s.channel + [Pointer(index, cursor)])
      else t.(dropped := s.dropped + {index}, refused := s.refused + {index}, producer := Recording(cursor, None))
    case Load => s.(producer := s.producer.(seen := Some(s.cell)))
    // The loop ends when the cell already holds as much; otherwise it writes the cursor if
    // the cell still holds what was read, and looks again if not.
    case Exchange =>
      if s.producer.seen.value >= s.producer.value then s.(producer := Resting)
      else if s.cell == s.producer.seen.value then s.(cell := s.producer.value, producer := Resting)
      else s.(producer := s.producer.(seen := Some(s.cell)))
    // The weak exchange may fail for no reason.
    case ExchangeFails => s.(producer := s.producer.(seen := Some(s.cell)))
    case Swap => if s.cell > 0 then s.(cell := 0, consumer := Draining(s.cell))
         else s.(cell := 0, consumer := Receiving)
    case DrainOne => s.(channel := s.channel[1..], dropped := s.dropped + {s.channel[0].index})
    case EmitStale =>
      var cursor := Max(s.cursor, s.consumer.overflow);
      s.(emitted := s.emitted + [Batch(cursor, true, [])],
         reasons := s.reasons + [Overflow(s.consumer.overflow, s.batch)],
         dropped := s.dropped + Indices(s.batch),
         batch := [], cursor := cursor, deadline := false, consumer := Top)
    case Receive =>
      var pointer := s.channel[0];
      var t := s.(channel := s.channel[1..], batch := s.batch + [pointer], cursor := Max(s.cursor, pointer.cursor),
                  deadline := true, consumer := Top);
      if |t.batch| < MAX_BATCH then t else Flushed(t)
    case Timeout => Flushed(s)
    case Wake => s.(consumer := Top)
  }

  ghost predicate Runs(from: State, steps: seq<Step>, to: State)
    decreases |steps|
  {
    if steps == [] then from == to
    else Enabled(from, steps[0]) && Runs(Apply(from, steps[0]), steps[1..], to)
  }

  // Everything emitted so far, in order.
  function Told(emitted: seq<Batch>): seq<Pointer> {
    if emitted == [] then [] else Told(emitted[..|emitted| - 1]) + emitted[|emitted| - 1].pointers
  }

  // The pointers not thrown away: emitted, then waiting in the batch, then in the channel.
  function Kept(s: State): seq<Pointer> {
    Told(s.emitted) + s.batch + s.channel
  }

  // A stale batch was emitted after the pointer arrived.
  ghost predicate Covered(s: State, index: nat)
    requires index < |s.emittedBefore|
  {
    exists k :: s.emittedBefore[index] <= k < |s.emitted| && s.emitted[k].stale
  }

  // A stale batch is still bound to come: the cell says so, the drain is under way, or
  // the callback is about to write the cell.
  predicate StaleIsComing(s: State) {
    || s.cell > 0
    || s.consumer.Draining?
    || (s.producer.Recording? && (s.producer.seen.Some? ==> s.producer.seen.value < s.producer.value))
  }

  ghost predicate InOrder(pointers: seq<Pointer>) {
    forall i, j :: 0 <= i < j < |pointers| ==> pointers[i].index < pointers[j].index
  }

  predicate WellFormed(batch: Batch) {
    && (batch.stale ==> batch.pointers == [])
    && (!batch.stale ==> 1 <= |batch.pointers| <= MAX_BATCH)
    && (forall i :: 0 <= i < |batch.pointers| ==> batch.pointers[i].cursor <= batch.cursor)
  }

  ghost predicate BatchesInv(s: State) {
    && |s.batch| < MAX_BATCH
    && (s.deadline <==> s.batch != [])
    && (forall pointer :: pointer in s.batch ==> pointer.cursor <= s.cursor)
    && (forall batch :: batch in s.emitted ==> WellFormed(batch) && batch.cursor <= s.cursor)
    && (forall i, j :: 0 <= i < j < |s.emitted| ==> s.emitted[i].cursor <= s.emitted[j].cursor)
    && |s.channel| <= CAPACITY
  }

  // Every pointer that arrived is dropped or has its one place among the kept, and the kept
  // stand in order of arrival.
  ghost predicate PlacedAs(arrived: seq<int>, dropped: set<nat>, kept: seq<Pointer>) {
    && (forall index: nat :: index < |arrived| ==> index in dropped || index in Indices(kept))
    && (forall pointer :: pointer in kept ==>
          pointer.index < |arrived| && pointer.cursor == arrived[pointer.index] && pointer.index !in dropped)
    && InOrder(kept)
  }

  ghost predicate Placed(s: State) {
    PlacedAs(s.arrived, s.dropped, Kept(s))
  }

  ghost predicate FateInv(s: State) {
    && |s.emittedBefore| == |s.arrived|
    && (forall i :: 0 <= i < |s.emittedBefore| ==> s.emittedBefore[i] <= |s.emitted|)
    && (forall index :: index in s.dropped ==> index < |s.arrived|)
    && Placed(s)
    && (forall index :: index in s.dropped ==> Covered(s, index) || StaleIsComing(s))
    && s.cell >= 0
    && (s.producer.Recording? ==> s.producer.value > 0)
  }

  ghost predicate Inv(s: State) {
    BatchesInv(s) && FateInv(s)
  }

  lemma {:induction false} FlushKeepsKept(s: State)
    ensures Kept(Flushed(s)) == Kept(s)
  {
    var t := Flushed(s);
    assert t.emitted[..|t.emitted| - 1] == s.emitted;
  }

  lemma {:induction false} StaleTellsNothing(emitted: seq<Batch>, cursor: int)
    ensures Told(emitted + [Batch(cursor, true, [])]) == Told(emitted)
  {
    assert (emitted + [Batch(cursor, true, [])])[..|emitted|] == emitted;
  }

  lemma {:induction false} StepKeepsBatches(s: State, step: Step)
    requires BatchesInv(s) && Enabled(s, step)
    ensures BatchesInv(Apply(s, step))
  {
    var t := Apply(s, step);
    if |t.emitted| > |s.emitted| {
      var batch := t.emitted[|s.emitted|];
      assert t.emitted == s.emitted + [batch];
      assert WellFormed(batch) && batch.cursor == t.cursor >= s.cursor;
      hide WellFormed;
      assert forall earlier :: earlier in t.emitted <==> earlier in s.emitted || earlier == batch;
    }
  }

  // More batches leave what was covered covered.
  lemma {:induction false} CoverStays(s: State, t: State, index: nat)
    requires index < |s.emittedBefore| <= |t.emittedBefore| && t.emittedBefore[index] == s.emittedBefore[index]
    requires s.emitted <= t.emitted && Covered(s, index)
    ensures Covered(t, index)
  {
    var k :| s.emittedBefore[index] <= k < |s.emitted| && s.emitted[k].stale;
    assert t.emitted[k] == s.emitted[k];
  }

  // What each step does to the pointers that are not thrown away.
  lemma {:induction false} KeptAfter(s: State, step: Step)
    requires Enabled(s, step)
    ensures var t := Apply(s, step);
            Kept(t) == match step
                       case Arrive(cursor) =>
                         if |s.channel| < CAPACITY then Kept(s) + [Pointer(|s.arrived|, cursor)] else Kept(s)
                       case DrainOne => Told(s.emitted) + s.batch + s.channel[1..]
                       case EmitStale => Told(s.emitted)
                       case _ => Kept(s)
  {
    match step {
      case Receive => ReceiveKeepsKept(s);
      case Timeout => FlushKeepsKept(s);
      case EmitStale => StaleTellsNothing(s.emitted, Max(s.cursor, s.consumer.overflow));
      case _ => hide Told;
    }
  }

  lemma {:induction false} ReceiveKeepsKept(s: State)
    requires Enabled(s, Receive)
    ensures Kept(Apply(s, Receive)) == Kept(s)
  {
    var full := s.(channel := s.channel[1..], batch := s.batch + [s.channel[0]],
                   cursor := Max(s.cursor, s.channel[0].cursor), deadline := true, consumer := Top);
    assert s.channel == [s.channel[0]] + s.channel[1..];
    assert Kept(full) == Kept(s);
    FlushKeepsKept(full);
  }

  // What was covered stays covered, and a promise is kept or passed on.
  lemma {:induction false} PromisesStay(s: State, step: Step, index: nat)
    requires FateInv(s) && Enabled(s, step) && index in Apply(s, step).dropped
    ensures index < |Apply(s, step).emittedBefore|
    ensures Covered(Apply(s, step), index) || StaleIsComing(Apply(s, step))
  {
    hide Placed, Kept, Told;
    var t := Apply(s, step);
    if index in s.dropped && Covered(s, index) {
      CoverStays(s, t, index);
    } else if step.EmitStale? {
      assert index < |s.arrived| by { StaleDropsArrivals(s, index); }
      assert t.emitted[|s.emitted|].stale;
    } else if step.DrainOne? {
      assert StaleIsComing(t);
    }
    assert index < |t.arrived| by { DroppedArrived(s, step, index); }
  }

  lemma {:induction false} StaleDropsArrivals(s: State, index: nat)
    requires FateInv(s) && Enabled(s, EmitStale) && index in Apply(s, EmitStale).dropped
    ensures index < |s.arrived|
  {
    hide Told, InOrder;
    if index !in s.dropped {
      var pointer :| pointer in s.batch && pointer.index == index;
      assert pointer in Kept(s);
    }
  }

  lemma {:induction false} DroppedArrived(s: State, step: Step, index: nat)
    requires FateInv(s) && Enabled(s, step) && index in Apply(s, step).dropped
    ensures index < |Apply(s, step).arrived|
  {
    hide Told, InOrder;
    if step.EmitStale? {
      StaleDropsArrivals(s, index);
    } else if step.DrainOne? {
      assert s.channel[0] in Kept(s);
    }
  }

  lemma {:induction false} StepKeepsFates(s: State, step: Step)
    requires FateInv(s) && Enabled(s, step)
    ensures FateInv(Apply(s, step))
  {
    hide Placed, Kept, Told, Indices, Covered, StaleIsComing;
    var t := Apply(s, step);
    PlacesStay(s, step);
    forall index | index in t.dropped
      ensures index < |t.arrived| && index < |t.emittedBefore|
      ensures Covered(t, index) || StaleIsComing(t)
    {
      DroppedArrived(s, step, index);
      PromisesStay(s, step, index);
    }
  }

  lemma {:induction false} PlacesStay(s: State, step: Step)
    requires FateInv(s) && Enabled(s, step)
    ensures Placed(Apply(s, step))
  {
    hide Placed, Kept, Told, Indices;
    match step {
      case Arrive(cursor) => ArrivalPlaces(s, cursor);
      case DrainOne => DrainPlaces(s);
      case EmitStale => StalePlaces(s);
      case _ => OthersPlace(s, step);
    }
  }

  lemma {:induction false} OthersPlace(s: State, step: Step)
    requires Placed(s) && Enabled(s, step) && !step.Arrive? && !step.DrainOne? && !step.EmitStale?
    ensures Placed(Apply(s, step))
  {
    hide PlacedAs, Kept;
    KeptAfter(s, step);
    assert Apply(s, step).arrived == s.arrived && Apply(s, step).dropped == s.dropped;
  }

  lemma {:induction false} ArrivalPlaces(s: State, cursor: int)
    requires FateInv(s) && Enabled(s, Arrive(cursor))
    ensures Placed(Apply(s, Arrive(cursor)))
  {
    hide PlacedAs, Kept, Told, Covered, StaleIsComing;
    KeptAfter(s, Arrive(cursor));
    if |s.channel| < CAPACITY {
      Joined(s.arrived, s.dropped, Kept(s), cursor);
    } else {
      Refused(s.arrived, s.dropped, Kept(s), cursor);
    }
  }

  lemma {:induction false} Refused(arrived: seq<int>, dropped: set<nat>, kept: seq<Pointer>, cursor: int)
    requires PlacedAs(arrived, dropped, kept)
    ensures PlacedAs(arrived + [cursor], dropped + {|arrived|}, kept)
  {
    hide InOrder, Indices;
  }

  lemma {:induction false} Joined(arrived: seq<int>, dropped: set<nat>, kept: seq<Pointer>, cursor: int)
    requires PlacedAs(arrived, dropped, kept) && forall index :: index in dropped ==> index < |arrived|
    ensures PlacedAs(arrived + [cursor], dropped, kept + [Pointer(|arrived|, cursor)])
  {
    var last := Pointer(|arrived|, cursor);
    var all := kept + [last];
    assert forall pointer :: pointer in all <==> pointer in kept || pointer == last;
    assert Indices(all) == Indices(kept) + {last.index};
    forall i, j | 0 <= i < j < |all|
      ensures all[i].index < all[j].index
    {
      assert all[i] == kept[i] && kept[i] in kept;
    }
  }

  lemma {:induction false} DrainPlaces(s: State)
    requires FateInv(s) && Enabled(s, DrainOne)
    ensures Placed(Apply(s, DrainOne))
  {
    hide PlacedAs, Told, Covered, StaleIsComing;
    KeptAfter(s, DrainOne);
    var told, first, rest := Told(s.emitted) + s.batch, s.channel[0], s.channel[1..];
    assert Kept(s) == told + [first] + rest;
    RemovedPlaces(s.arrived, s.dropped, told, first, rest);
  }

  lemma {:induction false} RemovedPlaces(arrived: seq<int>, dropped: set<nat>, before: seq<Pointer>, first: Pointer,
                                         after: seq<Pointer>)
    requires PlacedAs(arrived, dropped, before + [first] + after)
    ensures PlacedAs(arrived, dropped + {first.index}, before + after)
  {
    hide InOrder, Indices;
    Removed(before, first, after);
  }

  lemma {:induction false} StalePlaces(s: State)
    requires FateInv(s) && Enabled(s, EmitStale)
    ensures Placed(Apply(s, EmitStale))
  {
    hide PlacedAs, Told, Covered, StaleIsComing, Indices;
    KeptAfter(s, EmitStale);
    assert Kept(s) == Told(s.emitted) + s.batch;
    CutPlaces(s.arrived, s.dropped, Told(s.emitted), s.batch);
  }

  lemma {:induction false} CutPlaces(arrived: seq<int>, dropped: set<nat>, before: seq<Pointer>, after: seq<Pointer>)
    requires PlacedAs(arrived, dropped, before + after)
    ensures PlacedAs(arrived, dropped + Indices(after), before)
  {
    hide InOrder, Indices;
    CutOff(before, after);
    assert forall pointer :: pointer in before ==> pointer in before + after;
  }

  lemma {:induction false} Removed(before: seq<Pointer>, first: Pointer, after: seq<Pointer>)
    requires InOrder(before + [first] + after)
    ensures InOrder(before + after)
    ensures forall pointer :: pointer in before + after ==>
        pointer in before + [first] + after && pointer.index != first.index
    ensures Indices(before + [first] + after) == Indices(before + after) + {first.index}
  {
    var all, rest := before + [first] + after, before + after;
    forall i | 0 <= i < |rest|
      ensures rest[i] in all && rest[i].index != first.index
    {
      var j := if i < |before| then i else i + 1;
      assert rest[i] == all[j] && all[|before|] == first;
    }
    forall i, j | 0 <= i < j < |rest|
      ensures rest[i].index < rest[j].index
    {
      assert rest[i] == all[if i < |before| then i else i + 1];
      assert rest[j] == all[if j < |before| then j else j + 1];
    }
    assert forall pointer :: pointer in all <==> pointer in rest || pointer == first;
  }

  lemma {:induction false} CutOff(before: seq<Pointer>, after: seq<Pointer>)
    requires InOrder(before + after)
    ensures InOrder(before)
    ensures forall pointer :: pointer in before ==> pointer.index !in Indices(after)
    ensures Indices(before + after) == Indices(before) + Indices(after)
  {
    var all := before + after;
    forall i, j | 0 <= i < |before| && 0 <= j < |after|
      ensures before[i].index < after[j].index
    {
      assert before[i] == all[i] && after[j] == all[|before| + j];
    }
    forall i, j | 0 <= i < j < |before|
      ensures before[i].index < before[j].index
    {
      assert before[i] == all[i] && before[j] == all[j];
    }
  }

  lemma {:induction false} RunKeepsInv(from: State, steps: seq<Step>, to: State)
    requires Inv(from) && Runs(from, steps, to)
    ensures Inv(to)
    decreases |steps|
  {
    if steps != [] {
      StepKeepsBatches(from, steps[0]);
      StepKeepsFates(from, steps[0]);
      hide BatchesInv, FateInv, Apply, Enabled;
      RunKeepsInv(Apply(from, steps[0]), steps[1..], to);
    }
  }

  lemma {:induction false} ReachableInv(steps: seq<Step>, s: State)
    requires Runs(START, steps, s)
    ensures Inv(s)
  {
    assert Kept(START) == [];
    assert Inv(START);
    hide FateInv, BatchesInv, Runs, Told;
    RunKeepsInv(START, steps, s);
  }

  // In every interleaving, no pointer is lost in silence: it is emitted, or on its way in
  // order of arrival, or it was dropped and a stale batch came after it or is bound to.
  lemma {:induction false} NothingIsLostInSilence(steps: seq<Step>, s: State, index: nat)
    requires Runs(START, steps, s) && index < |s.arrived|
    ensures |s.emittedBefore| == |s.arrived|
    ensures index in Indices(Kept(s)) <==> index !in s.dropped
    ensures index in s.dropped ==>
              || Covered(s, index)
              || s.cell > 0
              || s.consumer.Draining?
              || (s.producer.Recording? && (s.producer.seen.Some? ==> s.producer.seen.value < s.producer.value))
    ensures InOrder(Kept(s))
  {
    ReachableInv(steps, s);
  }

  // Every batch emitted has the shape a reader relies on, and cursors never go back.
  lemma {:induction false} BatchesAreWellFormed(steps: seq<Step>, s: State)
    requires Runs(START, steps, s)
    ensures forall batch :: batch in s.emitted ==> WellFormed(batch)
    ensures forall i, j :: 0 <= i < j < |s.emitted| ==> s.emitted[i].cursor <= s.emitted[j].cursor
  {
    hide FateInv, Runs;
    ReachableInv(steps, s);
  }

  ghost predicate OnlyAPointerHelps(s: State) {
    forall step :: Enabled(s, step) ==> step.Arrive?
  }

  // A stale batch that is bound to come is held up in one place only: the cell was set
  // while the batcher sat in its receive, which nothing but another pointer ends.
  lemma {:induction false} WhereAStaleBatchWaits(s: State)
    requires Inv(s) && StaleIsComing(s)
    ensures OnlyAPointerHelps(s)
       <==> s.producer.Resting? && s.consumer.Receiving? && s.channel == [] && !s.deadline
  {
    if OnlyAPointerHelps(s) {
      assert !Enabled(s, Load) && !Enabled(s, Exchange) && !Enabled(s, Swap) && !Enabled(s, DrainOne);
      assert !Enabled(s, EmitStale) && !Enabled(s, Receive) && !Enabled(s, Timeout) && !Enabled(s, Wake);
    }
  }

  lemma {:induction false} RunsOn(from: State, first: seq<Step>, middle: State, second: seq<Step>, to: State)
    requires Runs(from, first, middle) && Runs(middle, second, to)
    ensures Runs(from, first + second, to)
    decreases |first|
  {
    hide Apply, Enabled;
    if first == [] {
      assert first + second == second;
    } else {
      RunsOn(Apply(from, first[0]), first[1..], middle, second, to);
      assert (first + second)[1..] == first[1..] + second;
    }
  }

  // A run with one step more.
  lemma {:induction false} Then(from: State, steps: seq<Step>, s: State, step: Step)
    requires Runs(from, steps, s) && Enabled(s, step)
    ensures Runs(from, steps + [step], Apply(s, step))
  {
    hide Apply, Enabled;
    assert [step][1..] == [];
    assert Runs(Apply(s, step), [], Apply(s, step));
    RunsOn(from, steps, s, [step], Apply(s, step));
  }

  function Full(n: nat): State {
    START.(arrived := seq(n, _ => 1), emittedBefore := seq(n, _ => 0), channel := seq(n, (i: nat) => Pointer(i, 1)))
  }

  lemma {:induction false} Fill(n: nat) returns (steps: seq<Step>)
    requires n <= CAPACITY
    ensures Runs(START, steps, Full(n))
  {
    if n == 0 {
      steps := [];
      assert Full(0) == START;
    } else {
      var before := Fill(n - 1);
      var s := Full(n - 1);
      assert Apply(s, Arrive(1)) == Full(n);
      Then(START, before, s, Arrive(1));
      steps := before + [Arrive(1)];
    }
  }

  // The batcher can empty its channel while the callback stands still.
  predicate Idle(s: State, producer: Producer, dropped: set<nat>, before: seq<nat>) {
    && s.producer == producer && s.dropped == dropped && s.emittedBefore == before && s.cell == 0
    && (forall batch :: batch in s.emitted ==> !batch.stale)
  }

  lemma {:induction false} Empty(s: State) returns (steps: seq<Step>, t: State)
    requires BatchesInv(s) && s.consumer.Top? && Idle(s, s.producer, s.dropped, s.emittedBefore)
    ensures Runs(s, steps, t) && Idle(t, s.producer, s.dropped, s.emittedBefore)
    ensures t.consumer.Receiving? && t.channel == [] && !t.deadline
    decreases |s.channel|, s.deadline
  {
    var waiting := Apply(s, Swap);
    Then(s, [], s, Swap);
    StepKeepsBatches(s, Swap);
    steps := [] + [Swap];
    if s.channel == [] && !s.deadline {
      return steps, waiting;
    }
    var step := if s.channel != [] then Receive else Timeout;
    var next := Apply(waiting, step);
    Then(s, steps, waiting, step);
    StepKeepsBatches(waiting, step);
    steps := steps + [step];
    if next.consumer.Sleeping? {
      Then(s, steps, next, Wake);
      StepKeepsBatches(next, Wake);
      steps, next := steps + [Wake], Apply(next, Wake);
    }
    hide Apply, Enabled, BatchesInv;
    var rest;
    rest, t := Empty(next);
    RunsOn(s, steps, next, rest, t);
    steps := steps + rest;
  }

  // It can happen: a pointer is thrown away, no stale batch follows it, and nothing but
  // the next pointer will bring one.
  lemma {:induction false} AStaleBatchCanWait() returns (steps: seq<Step>, s: State)
    ensures Runs(START, steps, s)
    ensures CAPACITY in s.dropped && CAPACITY < |s.emittedBefore| && !Covered(s, CAPACITY)
    ensures OnlyAPointerHelps(s)
  {
    var late, quiet, rest;
    steps, late := Overfill();
    ReachableInv(steps, late);
    rest, quiet := Empty(late);
    RunsOn(START, steps, late, rest, quiet);
    steps := steps + rest;
    hide Inv, FateInv, BatchesInv;
    Then(START, steps, quiet, Load);
    Then(START, steps + [Load], Apply(quiet, Load), Exchange);
    steps := steps + [Load] + [Exchange];
    s := Apply(Apply(quiet, Load), Exchange);
    ReachableInv(steps, s);
    WhereAStaleBatchWaits(s);
  }

  lemma {:induction false} Overfill() returns (steps: seq<Step>, s: State)
    ensures Runs(START, steps, s) && s.consumer.Top? && s.producer == Recording(1, None)
    ensures Idle(s, s.producer, {CAPACITY}, s.emittedBefore)
    ensures |s.emittedBefore| == CAPACITY + 1 && s.emittedBefore[CAPACITY] == 0
  {
    steps := Fill(CAPACITY);
    Then(START, steps, Full(CAPACITY), Arrive(1));
    s := Apply(Full(CAPACITY), Arrive(1));
    steps := steps + [Arrive(1)];
  }
}
