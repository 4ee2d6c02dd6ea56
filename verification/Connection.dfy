// The request half of an agent connection (rust/crates/oga-acp/src/transport.rs)
// as a state machine: every caller, the writer task, the reader task and the
// timers take atomic steps, in any order.
module Connection {
  import opened Protocol

  // Where a caller stands in `start_request` and `answer`.
  datatype Phase =
    | Allocated             // the id is taken
    | Inserted              // the waiter is in `pending`
    | Open                  // `closed` was read as false
    | Unsent               // the frame was not accepted; the waiter is still to be removed
    | Waiting               // the frame is queued
    | Expired               // the time ran out; the waiter is still to be removed
    | Ended(outcome: Outcome)

  datatype Outcome = NotSent | Closed | TimedOut | Answered(reply: Reply)

  // The oneshot channel, as its sender left it.
  datatype Channel = Empty | Filled(reply: Reply) | Dropped

  datatype Request = Request(call: Method, phase: Phase, channel: Channel)

  // A request's frame, or one that carries no id of ours.
  datatype Frame = RequestFrame(id: nat) | OtherFrame

  datatype Writer = Writing | Leaving | WriterGone
  datatype Reader = Reading | Holding(id: nat, reply: Reply) | Closing | ReaderGone

  datatype State = State(
    requests: seq<Request>,         // by id
    pending: set<nat>,
    closed: bool,
    queued: seq<Frame>,             // every frame the outbound queue ever took
    writer: Writer,
    reader: Reader,
    received: set<(nat, Reply)>)    // every answer that was ever read, with its id

  const START := State([], {}, false, [], Writing, Reading, {})

  datatype Step =
    | Begin(call: Method)
    | Insert(id: nat)
    | Check(id: nat)
    | Send(id: nat)
    | Withdraw(id: nat)
    | Receive(id: nat)
    | Expire(id: nat)
    | Forget(id: nat)
    | QueueOther
    | WriteFails
    | WriterLeaves
    | ReadAnswer(id: nat, reply: Reply)
    | Deliver
    | ReaderEnds
    | ReaderClears

  predicate At(s: State, id: nat, phase: Phase) {
    id < |s.requests| && s.requests[id].phase == phase
  }

  predicate Enabled(s: State, step: Step) {
    match step
    case Begin(_) => true
    case Insert(id) => At(s, id, Allocated)
    case Check(id) => At(s, id, Inserted)
    case Send(id) => At(s, id, Open)
    case Withdraw(id) => At(s, id, Unsent)
    case Receive(id) => At(s, id, Waiting) && !s.requests[id].channel.Empty?
    case Expire(id) => At(s, id, Waiting)
    case Forget(id) => At(s, id, Expired)
    case QueueOther => !s.writer.WriterGone?
    case WriteFails => s.writer.Writing?
    case WriterLeaves => s.writer.Leaving?
    case ReadAnswer(_, _) => s.reader.Reading?
    case Deliver => s.reader.Holding?
    case ReaderEnds => s.reader.Reading?
    case ReaderClears => s.reader.Closing?
  }

  function Moved(s: State, id: nat, phase: Phase): State
    requires id < |s.requests|
  {
    s.(requests := s.requests[id := s.requests[id].(phase := phase)])
  }

  function Signalled(s: State, id: nat, channel: Channel): State
    requires id < |s.requests|
  {
    s.(requests := s.requests[id := s.requests[id].(channel := channel)])
  }

  function Apply(s: State, step: Step): State
    requires Enabled(s, step)
  {
    match step
    case Begin(call) => s.(requests := s.requests + [Request(call, Allocated, Empty)])
    case Insert(id) => Moved(s, id, Inserted).(pending := s.pending + {id})
    case Check(id) => Moved(s, id, if s.closed then Unsent else Open)
    // Only a dropped receiver makes the unbounded queue refuse a frame.
    case Send(id) =>
      if s.writer.WriterGone? then Moved(s, id, Unsent)
      else Moved(s, id, Waiting).(queued := s.queued + [RequestFrame(id)])
    case Withdraw(id) => Moved(s, id, Ended(NotSent)).(pending := s.pending - {id})
    case Receive(id) =>
      var channel := s.requests[id].channel;
      Moved(s, id, Ended(if channel.Filled? then Answered(channel.reply) else Closed))
    case Expire(id) => Moved(s, id, Expired)
    case Forget(id) => Moved(s, id, Ended(TimedOut)).(pending := s.pending - {id})
    case QueueOther => s.(queued := s.queued + [OtherFrame])
    case WriteFails => s.(closed := true, writer := Leaving)
    case WriterLeaves => s.(writer := WriterGone)
    case ReadAnswer(id, reply) =>
      var read := s.(received := s.received + {(id, reply)});
      if id in s.pending then read.(pending := s.pending - {id}, reader := Holding(id, reply)) else read
    case Deliver =>
      var held := s.reader;
      if held.id < |s.requests| then Signalled(s, held.id, Filled(held.reply)).(reader := Reading)
      else s.(reader := Reading)
    case ReaderEnds => s.(closed := true, reader := Closing)
    // Dropping the senders wakes every waiter that is still there.
    case ReaderClears =>
      s.(pending := {}, reader := ReaderGone,
         requests := seq(|s.requests|, i requires 0 <= i < |s.requests| =>
           if i in s.pending then s.requests[i].(channel := Dropped) else s.requests[i]))
  }

  // A run of steps from one state to another.
  ghost predicate Runs(from: State, steps: seq<Step>, to: State)
    decreases |steps|
  {
    if steps == [] then from == to
    else Enabled(from, steps[0]) && Runs(Apply(from, steps[0]), steps[1..], to)
  }

  predicate InPending(phase: Phase) {
    phase.Inserted? || phase.Open? || phase.Unsent? || phase.Waiting? || phase.Expired?
  }

  predicate WasQueued(phase: Phase) {
    phase.Waiting? || phase.Expired? || (phase.Ended? && !phase.outcome.NotSent?)
  }

  ghost predicate Holds(s: State, id: nat) {
    s.reader.Holding? && s.reader.id == id
  }

  // What is true of each request: its sender is in `pending`, held by the reader,
  // or used up, and its frame was queued exactly when it got that far.
  ghost predicate RequestInv(s: State, id: nat)
    requires id < |s.requests|
  {
    var r := s.requests[id];
    && (id in s.pending ==> InPending(r.phase) && r.channel.Empty? && !Holds(s, id))
    && (Holds(s, id) ==> r.channel.Empty? && !r.phase.Allocated?)
    && (r.phase.Allocated? ==> r.channel.Empty?)
    && (InPending(r.phase) && r.channel.Empty? ==> id in s.pending || Holds(s, id))
    && (r.channel.Filled? ==> (id, r.channel.reply) in s.received)
    && (r.phase.Ended? && r.phase.outcome.Answered? ==> (id, r.phase.outcome.reply) in s.received)
    && (RequestFrame(id) in s.queued <==> WasQueued(r.phase))
    && (s.reader.ReaderGone? && id in s.pending ==> r.phase.Inserted? || r.phase.Unsent?)
  }

  ghost predicate Inv(s: State) {
    && (forall id :: 0 <= id < |s.requests| ==> RequestInv(s, id))
    && (forall id :: id in s.pending ==> id < |s.requests|)
    && (forall frame :: frame in s.queued && frame.RequestFrame? ==> frame.id < |s.requests|)
    && (s.reader.Holding? ==> s.reader.id < |s.requests| && (s.reader.id, s.reader.reply) in s.received)
    && (s.reader.Closing? || s.reader.ReaderGone? ==> s.closed)
    && (!s.writer.Writing? ==> s.closed)
    && (s.closed ==> !s.writer.Writing? || s.reader.Closing? || s.reader.ReaderGone?)
    && (forall i, j :: 0 <= i < j < |s.queued| && s.queued[i].RequestFrame? ==> s.queued[i] != s.queued[j])
  }

  predicate OfTheReader(step: Step) {
    step.ReadAnswer? || step.Deliver? || step.ReaderEnds? || step.ReaderClears?
  }

  lemma {:induction false} ReaderKeepsRequest(s: State, step: Step, id: nat)
    requires Inv(s) && Enabled(s, step) && OfTheReader(step) && id < |s.requests|
    ensures RequestInv(Apply(s, step), id)
  {
    assert RequestInv(s, id);
  }

  lemma {:induction false} QueueKeepsRequest(s: State, step: Step, id: nat)
    requires Inv(s) && Enabled(s, step) && (step.Send? || step.QueueOther?) && id < |s.requests|
    ensures RequestInv(Apply(s, step), id)
  {
    assert RequestInv(s, id);
  }

  lemma {:induction false} CallerKeepsRequest(s: State, step: Step, id: nat)
    requires Inv(s) && Enabled(s, step) && id < |Apply(s, step).requests|
    requires !OfTheReader(step) && !step.Send? && !step.QueueOther?
    ensures RequestInv(Apply(s, step), id)
  {
    if id < |s.requests| {
      assert RequestInv(s, id);
    } else {
      assert RequestFrame(id) !in s.queued;
    }
  }

  lemma {:induction false} StepKeepsInv(s: State, step: Step)
    requires Inv(s) && Enabled(s, step)
    ensures Inv(Apply(s, step))
  {
    var t := Apply(s, step);
    forall id | 0 <= id < |t.requests|
      ensures RequestInv(t, id)
    {
      if OfTheReader(step) {
        ReaderKeepsRequest(s, step, id);
      } else if step.Send? || step.QueueOther? {
        QueueKeepsRequest(s, step, id);
      } else {
        CallerKeepsRequest(s, step, id);
      }
    }
    if step.Send? && !s.writer.WriterGone? {
      assert RequestInv(s, step.id);
      assert t.queued == s.queued + [RequestFrame(step.id)];
      assert forall i :: 0 <= i < |s.queued| ==> s.queued[i] in s.queued;
    }
    hide RequestInv;
  }

  lemma {:induction false} RunKeepsInv(from: State, steps: seq<Step>, to: State)
    requires Inv(from) && Runs(from, steps, to)
    ensures Inv(to)
    decreases |steps|
  {
    if steps != [] {
      StepKeepsInv(from, steps[0]);
      RunKeepsInv(Apply(from, steps[0]), steps[1..], to);
    }
  }

  // In every interleaving: a request that failed as "not sent" never reached the
  // queue, every other ended one reached it exactly once, and an answer is one that
  // was read with that very id.
  lemma {:induction false} SentExactlyWhenItSays(steps: seq<Step>, s: State, id: nat)
    requires Runs(START, steps, s) && id < |s.requests| && s.requests[id].phase.Ended?
    ensures s.requests[id].phase.outcome == NotSent <==> RequestFrame(id) !in s.queued
    ensures forall i, j :: 0 <= i < j < |s.queued| && s.queued[i] == RequestFrame(id) ==>
        s.queued[j] != RequestFrame(id)
    ensures s.requests[id].phase.outcome.Answered? ==> (id, s.requests[id].phase.outcome.reply) in s.received
  {
    RunKeepsInv(START, steps, s);
    assert RequestInv(s, id);
  }

  // The connection reads as closed exactly once a write failed or the agent's end was read.
  lemma {:induction false} ClosedMeans(steps: seq<Step>, s: State)
    requires Runs(START, steps, s)
    ensures s.closed <==> s.writer != Writing || s.reader == Closing || s.reader == ReaderGone
  {
    RunKeepsInv(START, steps, s);
  }

  // A request moves by its own steps alone: it goes out unless the connection reads as closed
  // or the queue takes nothing more, and ends as what was left for it in its channel.
  lemma {:induction false} HowRequestsMove(s: State, step: Step, id: nat)
    requires Enabled(s, step) && id < |s.requests|
    ensures id < |Apply(s, step).requests|
    ensures var before := s.requests[id];
            var after := Apply(s, step).requests[id];
            && after.call == before.call
            && (step == Insert(id) ==> before.phase == Allocated && after.phase == Inserted)
            && (step == Check(id) ==> before.phase == Inserted && after.phase == if s.closed then Unsent else Open)
            && (step == Send(id) ==> before.phase == Open && after.phase == if s.writer == WriterGone then Unsent
                                                                            else Waiting)
            && (step == Withdraw(id) ==> before.phase == Unsent && after.phase == Ended(NotSent))
            && (step == Receive(id) ==> before.phase == Waiting && before.channel != Empty)
            && (step == Receive(id) && before.channel == Dropped ==> after.phase == Ended(Closed))
            && (step == Receive(id) && before.channel != Dropped ==>
                  before.channel.Filled? && after.phase == Ended(Answered(before.channel.reply)))
            && (step == Expire(id) ==> before.phase == Waiting && after.phase == Expired)
            && (step == Forget(id) ==> before.phase == Expired && after.phase == Ended(TimedOut))
            && (after.phase != before.phase ==>
                  || step == Insert(id) || step == Check(id) || step == Send(id) || step == Withdraw(id)
                  || step == Receive(id) || step == Expire(id) || step == Forget(id))
  {
  }

  // What the two tasks do: the writer stops at a failed write, the reader hands each answer to
  // the request that waits for it and wakes whoever is left at the end.
  lemma {:induction false} HowTasksMove(s: State, step: Step)
    requires Enabled(s, step)
    ensures var t := Apply(s, step);
            && (t.writer != s.writer <==> step == WriteFails || step == WriterLeaves)
            && (step == WriteFails ==> t.writer == Leaving && t.closed)
            && (step == WriterLeaves ==> t.writer == WriterGone)
            && (t.reader != s.reader <==>
                  || step == Deliver || step == ReaderEnds || step == ReaderClears
                  || (step.ReadAnswer? && step.id in s.pending))
            && (step.ReadAnswer? && step.id in s.pending ==>
                  t.reader == Holding(step.id, step.reply) && step.id !in t.pending)
            && (step == Deliver ==> t.reader == Reading)
            && (step == Deliver && s.reader.id < |s.requests| ==>
                  t.requests[s.reader.id].channel == Filled(s.reader.reply))
            && (step == ReaderEnds ==> t.reader == Closing && t.closed)
            && (step == ReaderClears ==> t.reader == ReaderGone && t.pending == {})
            && t.queued == s.queued + (if step.Send? && s.writer != WriterGone then [RequestFrame(step.id)]
                                       else if step == QueueOther then [OtherFrame] else [])
    ensures Enabled(s, QueueOther) <==> s.writer != WriterGone
  {
  }

  // Once the reader is gone, whoever is still in `pending` has not sent and can only
  // be refused, and everyone who did send has been woken.
  lemma {:induction false} NoWaiterOutlivesTheAgent(steps: seq<Step>, s: State, id: nat)
    requires Runs(START, steps, s) && s.reader.ReaderGone? && id < |s.requests|
    ensures s.closed
    ensures id in s.pending ==>
              || s.requests[id].phase.Unsent?
              || (s.requests[id].phase.Inserted? && Apply(s, Check(id)).requests[id].phase.Unsent?)
    ensures s.requests[id].phase.Waiting? ==> Enabled(s, Receive(id))
  {
    RunKeepsInv(START, steps, s);
    assert RequestInv(s, id);
  }

  // How many steps of its own a request still has before it.
  function Rank(phase: Phase): nat {
    match phase
    case Allocated => 4
    case Inserted => 3
    case Open => 2
    case Waiting => 1
    case Unsent => 1
    case Expired => 1
    case Ended(_) => 0
  }

  // The request's own next step after the reader is gone.
  function OwnStep(s: State, id: nat): Step
    requires id < |s.requests|
  {
    match s.requests[id].phase
    case Allocated => Insert(id)
    case Inserted => Check(id)
    case Open => Send(id)
    case Unsent => Withdraw(id)
    case Waiting => Receive(id)
    case Expired => Forget(id)
    case Ended(_) => QueueOther
  }

  // After the reader is gone no request is ever stuck: its own next step is enabled
  // and brings it closer to its end, and nobody else's step takes that away.
  lemma {:induction false} EveryRequestEnds(steps: seq<Step>, s: State, id: nat)
    requires Runs(START, steps, s) && s.reader.ReaderGone?
    requires id < |s.requests| && !s.requests[id].phase.Ended?
    ensures Enabled(s, OwnStep(s, id))
    ensures Rank(Apply(s, OwnStep(s, id)).requests[id].phase) < Rank(s.requests[id].phase)
    ensures forall step :: Enabled(s, step) ==>
              Rank(Apply(s, step).requests[id].phase) <= Rank(s.requests[id].phase)
  {
    NoWaiterOutlivesTheAgent(steps, s, id);
    forall step | Enabled(s, step)
      ensures Rank(Apply(s, step).requests[id].phase) <= Rank(s.requests[id].phase)
    {
    }
  }

  // An end is an end: no step changes how a request ended.
  lemma {:induction false} EndsOnce(from: State, steps: seq<Step>, to: State, id: nat)
    requires Runs(from, steps, to) && id < |from.requests| && from.requests[id].phase.Ended?
    ensures id < |to.requests| && to.requests[id].phase == from.requests[id].phase
    decreases |steps|
  {
    if steps != [] {
      EndsOnce(Apply(from, steps[0]), steps[1..], to, id);
    }
  }

  // A writer that fails says so in `closed` but wakes nobody: until the reader ends, a
  // request it strands can only wait or run out of time.
  lemma {:induction false} WriterFailureWakesNobody(steps: seq<Step>, s: State, id: nat)
    requires Runs(START, steps, s) && s.writer.Writing?
    requires id < |s.requests| && id in s.pending && s.requests[id].phase.Waiting?
    ensures var after := Apply(Apply(s, WriteFails), WriterLeaves);
            after.closed && id in after.pending && At(after, id, Waiting) && !Enabled(after, Receive(id))
  {
    RunKeepsInv(START, steps, s);
    assert RequestInv(s, id);
  }
}
