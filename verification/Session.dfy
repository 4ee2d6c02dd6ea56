// One ACP session on top of its connection (rust/crates/oga-acp/src/session.rs and
// outcome.rs): the opening handshake runs as one task, prompts come after it, and
// the connection's own steps fall between theirs in any order.
module Session {
  import opened Basics
  import opened Connection
  import opened Protocol

  datatype Stage = Spawn | Initializing | Opening | Configuring

  datatype Refusal = Authentication | Permission

  datatype AcpError =
    | Unavailable(stage: Stage)
    | Refused(kind: Refusal)
    | PromptInFlight
    | TurnFailed

  predicate AllowsRetryElsewhere(error: AcpError) {
    error.Unavailable?
  }

  datatype Versions = Line(line: string) | Build(build: string)

  datatype Release = Release(name: string, versions: Versions)

  predicate IsDigit(c: char) {
    '0' <= c <= '9'
  }

  predicate Admits(release: Release, info: Info) {
    && info.name == release.name
    && match release.versions
       case Line(line) =>
         && line <= info.version
         && |info.version| > |line| + 1
         && info.version[|line|] == '.'
         && forall i :: |line| < i < |info.version| ==> IsDigit(info.version[i])
       case Build(build) => info.version == build
  }

  datatype Start = New | Load | Resume

  datatype Wanted = Wanted(id: string, value: string, required: bool)

  datatype Launch = Launch(
    version: int,
    release: Option<Release>,
    authentication: Option<string>,
    start: Start,
    settings: seq<Wanted>,
    stopReasons: set<string>)     // the ends of a turn that the protocol's schema names

  datatype Choice = Held | Offered | Missing

  function ChoiceOf(offered: seq<Setting>, wanted: Wanted): Choice {
    if offered == [] then Missing
    else if offered[0].id != wanted.id then ChoiceOf(offered[1..], wanted)
    else if offered[0].OtherKind? then Missing
    else if offered[0].current == wanted.value then Held
    else if wanted.value in offered[0].values then Offered
    else Missing
  }

  datatype RpcError = NeverSent | ConnectionClosed | TimedOutError | AgentError(authRequired: bool) | Decode

  // What a caller that reads the answer as one of `wanted` values gets for an outcome.
  datatype Read = Good(value: Value) | Bad(error: RpcError)

  function ReadAs(outcome: Outcome, readable: Value -> bool): Read {
    match outcome
    case NotSent => Bad(NeverSent)
    case Closed => Bad(ConnectionClosed)
    case TimedOut => Bad(TimedOutError)
    case Answered(Failure(authRequired)) => Bad(AgentError(authRequired))
    case Answered(Result(value)) => if readable(value) then Good(value) else Bad(Decode)
  }

  function ClassifyHandshake(stage: Stage, error: RpcError): AcpError {
    if error == AgentError(true) then Refused(Authentication) else Unavailable(stage)
  }

  function ClassifyAuthenticate(error: RpcError): AcpError {
    if error.AgentError? then Refused(Authentication) else Unavailable(Initializing)
  }

  function ClassifyPrompt(error: RpcError): AcpError {
    match error
    case NeverSent => Unavailable(Opening)
    case AgentError(authRequired) => if authRequired then Refused(Authentication) else TurnFailed
    case _ => PromptInFlight
  }

  // Where the opening task stands.
  datatype Handshake =
    | Idle
    | AwaitingAgent(id: nat)
    | AwaitingSignIn(id: nat, agent: Agent)
    | AwaitingSession(id: nat)
    | Choosing(next: nat, offered: seq<Setting>)
    | AwaitingChoice(id: nat, next: nat, offered: seq<Setting>)
    | Ready
    | Failed(error: AcpError)

  datatype Kind = PromptTurn | SendPrompt | SteerTurn

  datatype Steered = Injected | Elsewhere(outcome: string)

  // A prompt gives why the turn stopped, a steer where the instruction went, and a prompt
  // left unread only that it was sent.
  datatype CallResult =
    | Running
    | Stops(reason: string)
    | Steers(steered: Steered)
    | Sent
    | Wrong(error: AcpError)

  datatype Call = Call(kind: Kind, id: nat, result: CallResult)

  datatype System = System(wire: State, handshake: Handshake, calls: seq<Call>)

  const BEGINNING := System(START, Idle, [])

  datatype Move =
    | Wire(step: Step)
    | SpawnFails
    | Advance
    | Place(kind: Kind)
    | Settle(call: nat)

  function MethodOf(kind: Kind): Method {
    if kind.SteerTurn? then Steer else Prompt
  }

  function StartMethod(start: Start): Method {
    match start
    case New => SessionNew
    case Load => SessionLoad
    case Resume => SessionResume
  }

  predicate IsEnded(wire: State, id: nat) {
    id < |wire.requests| && wire.requests[id].phase.Ended?
  }

  function OutcomeOf(wire: State, id: nat): Outcome
    requires IsEnded(wire, id)
  {
    wire.requests[id].phase.outcome
  }

  predicate CanAdvance(s: System) {
    match s.handshake
    case Idle => true
    case AwaitingAgent(id) => IsEnded(s.wire, id)
    case AwaitingSignIn(id, _) => IsEnded(s.wire, id)
    case AwaitingSession(id) => IsEnded(s.wire, id)
    case Choosing(_, _) => true
    case AwaitingChoice(id, _, _) => IsEnded(s.wire, id)
    case Ready => false
    case Failed(_) => false
  }

  predicate CanSettle(s: System, k: nat) {
    && k < |s.calls|
    && s.calls[k].result.Running?
    && s.calls[k].id < |s.wire.requests|
    && var phase := s.wire.requests[s.calls[k].id].phase;
       if s.calls[k].kind.SendPrompt? then phase.Waiting? || phase.Expired? || phase.Ended? else phase.Ended?
  }

  predicate Possible(s: System, move: Move) {
    match move
    case Wire(step) => !step.Begin? && Enabled(s.wire, step)
    case SpawnFails => s.handshake.Idle?
    case Advance => CanAdvance(s)
    case Place(_) => s.handshake.Ready?
    case Settle(k) => CanSettle(s, k)
  }

  function Asked(s: System, call: Method, handshake: Handshake): System {
    s.(wire := Apply(s.wire, Begin(call)), handshake := handshake)
  }

  function Stop(s: System, error: AcpError): System {
    s.(handshake := Failed(error))
  }

  // The agent speaks this version and is the one the launch was verified against.
  predicate Suits(launch: Launch, agent: Agent) {
    && agent.version == launch.version
    && (launch.release.Some? ==> agent.info.Some? && Admits(launch.release.value, agent.info.value))
  }

  function Met(launch: Launch, s: System, agent: Agent): System {
    if !Suits(launch, agent) then Stop(s, Unavailable(Initializing))
    else if launch.authentication.None? then OpenSession(launch, s, agent)
    else if launch.authentication.value !in agent.authMethods then Stop(s, Refused(Authentication))
    else Asked(s, Authenticate(launch.authentication.value), AwaitingSignIn(|s.wire.requests|, agent))
  }

  function OpenSession(launch: Launch, s: System, agent: Agent): System {
    if launch.start.Load? && !agent.canLoad then Stop(s, Unavailable(Opening))
    else if launch.start.Resume? && !agent.canResume then Stop(s, Unavailable(Opening))
    else Asked(s, StartMethod(launch.start), AwaitingSession(|s.wire.requests|))
  }

  function Choose(launch: Launch, s: System, next: nat, offered: seq<Setting>): System {
    if next >= |launch.settings| then s.(handshake := Ready)
    else
      var wanted := launch.settings[next];
      match ChoiceOf(offered, wanted)
      case Held => s.(handshake := Choosing(next + 1, offered))
      case Offered =>
        Asked(s, SetOption(wanted.id, wanted.value), AwaitingChoice(|s.wire.requests|, next, offered))
      case Missing =>
        if wanted.required then Stop(s, Unavailable(Configuring))
        else s.(handshake := Choosing(next + 1, offered))
  }

  function Advanced(launch: Launch, s: System): System
    requires CanAdvance(s)
  {
    match s.handshake
    case Idle => Asked(s, Initialize, AwaitingAgent(|s.wire.requests|))
    case AwaitingAgent(id) =>
      (match ReadAs(OutcomeOf(s.wire, id), (value: Value) => value.Agreed?)
       case Good(value) => if value.Agreed? then Met(launch, s, value.agent) else s
       case Bad(error) => Stop(s, ClassifyHandshake(Initializing, error)))
    case AwaitingSignIn(id, agent) =>
      (match ReadAs(OutcomeOf(s.wire, id), (value: Value) => true)
       case Good(_) => OpenSession(launch, s, agent)
       case Bad(error) => Stop(s, ClassifyAuthenticate(error)))
    case AwaitingSession(id) =>
      (match ReadAs(OutcomeOf(s.wire, id), (value: Value) => launch.start.New? ==> value.Opened?)
       case Good(value) => s.(handshake := Choosing(0, if value.Opened? then value.offered else []))
       case Bad(error) => Stop(s, ClassifyHandshake(Opening, error)))
    case Choosing(next, offered) => Choose(launch, s, next, offered)
    case AwaitingChoice(id, next, offered) =>
      (match ReadAs(OutcomeOf(s.wire, id), (value: Value) => true)
       case Good(value) => s.(handshake := Choosing(next + 1, if value.Opened? then value.offered else offered))
       case Bad(error) => Stop(s, ClassifyHandshake(Configuring, error)))
  }

  // One agent spells a reason its own way.
  function SpecStopReason(word: string): string {
    if word == "refused" then "refusal" else word
  }

  function PromptResult(launch: Launch, value: Value): CallResult {
    if value.Stopped? && SpecStopReason(value.word) in launch.stopReasons then Stops(SpecStopReason(value.word))
    else Wrong(PromptInFlight)
  }

  function SteerResult(value: Value): CallResult {
    if !value.Took? then Steers(Elsewhere("no outcome"))
    else if value.outcome == "injected" then Steers(Injected)
    else Steers(Elsewhere(value.outcome))
  }

  function ResultOf(launch: Launch, kind: Kind, phase: Phase): CallResult
    requires phase.Ended? || (kind.SendPrompt? && (phase.Waiting? || phase.Expired?))
  {
    match kind
    // `send_prompt` answers once the frame is queued and leaves the turn unread.
    case SendPrompt => if phase == Ended(NotSent) then Wrong(Unavailable(Opening)) else Sent
    case PromptTurn =>
      (match ReadAs(phase.outcome, (value: Value) => true)
       case Good(value) => PromptResult(launch, value)
       case Bad(error) => Wrong(ClassifyPrompt(error)))
    case SteerTurn =>
      (match ReadAs(phase.outcome, (value: Value) => true)
       case Good(value) => SteerResult(value)
       case Bad(error) => Wrong(Unavailable(Opening)))
  }

  function After(launch: Launch, s: System, move: Move): System
    requires Possible(s, move)
  {
    match move
    case Wire(step) => s.(wire := Apply(s.wire, step))
    case SpawnFails => Stop(s, Unavailable(Spawn))
    case Advance => Advanced(launch, s)
    case Place(kind) =>
      s.(wire := Apply(s.wire, Begin(MethodOf(kind))), calls := s.calls + [Call(kind, |s.wire.requests|, Running)])
    case Settle(k) =>
      var call := s.calls[k];
      s.(calls := s.calls[k := call.(result := ResultOf(launch, call.kind, s.wire.requests[call.id].phase))])
  }

  ghost predicate Plays(launch: Launch, from: System, moves: seq<Move>, to: System)
    decreases |moves|
  {
    if moves == [] then from == to
    else Possible(from, moves[0]) && Plays(launch, After(launch, from, moves[0]), moves[1..], to)
  }

  predicate CarriesPrompt(call: Method) {
    call.Prompt? || call.Steer?
  }

  predicate OfASession(call: Method) {
    !call.Initialize? && !call.Authenticate?
  }

  predicate EndedWith(wire: State, id: nat, call: Method, value: Value) {
    && id < |wire.requests|
    && wire.requests[id].call == call
    && wire.requests[id].phase == Ended(Answered(Result(value)))
  }

  ghost predicate Agrees(launch: Launch, wire: State, agent: Agent) {
    Suits(launch, agent) && exists id :: EndedWith(wire, id, Initialize, Agreed(agent))
  }

  ghost predicate SignedIn(launch: Launch, wire: State) {
    launch.authentication.Some? ==>
      exists id, value :: EndedWith(wire, id, Authenticate(launch.authentication.value), value)
  }

  // `initialize` was answered by a suitable agent and, if asked for, sign-in completed.
  ghost predicate Cleared(launch: Launch, wire: State) {
    (exists agent :: Agrees(launch, wire, agent)) && SignedIn(launch, wire)
  }

  ghost predicate HandshakeInv(launch: Launch, s: System) {
    match s.handshake
    case Idle => s.wire.requests == []
    case AwaitingAgent(id) => id < |s.wire.requests| && s.wire.requests[id].call == Initialize
    case AwaitingSignIn(id, agent) =>
      && launch.authentication.Some?
      && id < |s.wire.requests|
      && s.wire.requests[id].call == Authenticate(launch.authentication.value)
      && Agrees(launch, s.wire, agent)
    case AwaitingSession(id) => Cleared(launch, s.wire)
    case Choosing(_, _) => Cleared(launch, s.wire)
    case AwaitingChoice(_, _, _) => Cleared(launch, s.wire)
    case Ready => Cleared(launch, s.wire)
    case Failed(_) => true
  }

  // The reason an agent's word stands for, where the schema names it.
  predicate Reads(launch: Launch, word: string, reason: string) {
    && reason in launch.stopReasons
    && (word == reason || (word == "refused" && reason == "refusal"))
    && (word == "refused" ==> reason == "refusal")
  }

  // What each kind of call may give for how its request ended.
  ghost predicate PromptTells(launch: Launch, result: CallResult, outcome: Outcome) {
    match outcome
    case NotSent => result == Wrong(Unavailable(Opening))
    case Closed => result == Wrong(PromptInFlight)
    case TimedOut => result == Wrong(PromptInFlight)
    case Answered(Failure(true)) => result == Wrong(Refused(Authentication))
    case Answered(Failure(false)) => result == Wrong(TurnFailed)
    case Answered(Result(value)) =>
      || (result.Stops? && value.Stopped? && Reads(launch, value.word, result.reason))
      || (result == Wrong(PromptInFlight) && (value.Stopped? ==> forall reason :: !Reads(launch, value.word, reason)))
  }

  ghost predicate SteerTells(result: CallResult, outcome: Outcome) {
    if outcome.Answered? && outcome.reply.Result? then
      var value := outcome.reply.value;
      && result.Steers?
      && (result.steered.Injected? <==> value == Took("injected"))
      && (result.steered.Elsewhere? ==> result.steered.outcome == if value.Took? then value.outcome else "no outcome")
    else result == Wrong(Unavailable(Opening))
  }

  ghost predicate Tells(launch: Launch, call: Call, phase: Phase) {
    call.result.Running? ||
      match call.kind
      case SendPrompt =>
        || (call.result == Sent && WasQueued(phase))
        || (call.result == Wrong(Unavailable(Opening)) && phase == Ended(NotSent))
      case PromptTurn => phase.Ended? && PromptTells(launch, call.result, phase.outcome)
      case SteerTurn => phase.Ended? && SteerTells(call.result, phase.outcome)
  }

  ghost predicate CallInv(launch: Launch, s: System, k: nat)
    requires k < |s.calls|
  {
    var call := s.calls[k];
    && call.id < |s.wire.requests|
    && s.wire.requests[call.id].call == MethodOf(call.kind)
    && Tells(launch, call, s.wire.requests[call.id].phase)
  }

  ghost predicate Sound(launch: Launch, s: System) {
    && Inv(s.wire)
    && HandshakeInv(launch, s)
    && (forall id :: 0 <= id < |s.wire.requests| && OfASession(s.wire.requests[id].call) ==>
          Cleared(launch, s.wire))
    && (!s.handshake.Ready? ==> s.calls == [])
    && (!s.handshake.Ready? ==>
          forall id :: 0 <= id < |s.wire.requests| ==> !CarriesPrompt(s.wire.requests[id].call))
    && (forall k :: 0 <= k < |s.calls| ==> CallInv(launch, s, k))
    && (forall j, k :: 0 <= j < k < |s.calls| ==> s.calls[j].id != s.calls[k].id)
  }

  // A request keeps its method, and an ended one its end.
  predicate Grows(from: State, to: State) {
    && |from.requests| <= |to.requests|
    && forall id :: 0 <= id < |from.requests| ==>
         && to.requests[id].call == from.requests[id].call
         && (from.requests[id].phase.Ended? ==> to.requests[id].phase == from.requests[id].phase)
         && (WasQueued(from.requests[id].phase) ==> WasQueued(to.requests[id].phase))
  }

  lemma {:induction false} StepGrows(s: State, step: Step)
    requires Enabled(s, step)
    ensures Grows(s, Apply(s, step))
    ensures !step.Begin? ==> |Apply(s, step).requests| == |s.requests|
  {
  }

  lemma {:induction false} GrowingKeepsCleared(launch: Launch, from: State, to: State)
    requires Grows(from, to)
    ensures forall agent :: Agrees(launch, from, agent) ==> Agrees(launch, to, agent)
    ensures SignedIn(launch, from) ==> SignedIn(launch, to)
    ensures Cleared(launch, from) ==> Cleared(launch, to)
  {
    forall agent | Agrees(launch, from, agent)
      ensures Agrees(launch, to, agent)
    {
      var id :| EndedWith(from, id, Initialize, Agreed(agent));
      assert EndedWith(to, id, Initialize, Agreed(agent));
    }
    if SignedIn(launch, from) && launch.authentication.Some? {
      var id, value :| EndedWith(from, id, Authenticate(launch.authentication.value), value);
      assert EndedWith(to, id, Authenticate(launch.authentication.value), value);
    }
  }

  lemma {:induction false} WireKeepsSound(launch: Launch, s: System, step: Step)
    requires Sound(launch, s) && !step.Begin? && Enabled(s.wire, step)
    ensures Sound(launch, s.(wire := Apply(s.wire, step)))
  {
    StepKeepsInv(s.wire, step);
    StepGrows(s.wire, step);
    var t := s.(wire := Apply(s.wire, step));
    hide Apply, Enabled, Inv;
    GrowingKeepsCleared(launch, s.wire, t.wire);
    forall k | 0 <= k < |t.calls|
      ensures CallInv(launch, t, k)
    {
      assert CallInv(launch, s, k);
    }
  }

  // Asking one more question, of a session only when cleared for one.
  lemma {:induction false} AskKeepsSound(launch: Launch, s: System, call: Method, handshake: Handshake)
    requires Sound(launch, s) && !s.handshake.Ready? && !handshake.Ready? && !CarriesPrompt(call)
    requires OfASession(call) ==> Cleared(launch, s.wire)
    requires HandshakeInv(launch, Asked(s, call, handshake))
    ensures Sound(launch, Asked(s, call, handshake))
  {
    StepKeepsInv(s.wire, Begin(call));
    StepGrows(s.wire, Begin(call));
    GrowingKeepsCleared(launch, s.wire, Apply(s.wire, Begin(call)));
    hide Inv;
  }

  lemma {:induction false} OpenSessionKeepsSound(launch: Launch, s: System, agent: Agent)
    requires Sound(launch, s) && !s.handshake.Ready? && Cleared(launch, s.wire)
    ensures Sound(launch, OpenSession(launch, s, agent))
  {
    StepGrows(s.wire, Begin(StartMethod(launch.start)));
    GrowingKeepsCleared(launch, s.wire, Apply(s.wire, Begin(StartMethod(launch.start))));
    hide Inv;
    if OpenSession(launch, s, agent).handshake.AwaitingSession? {
      AskKeepsSound(launch, s, StartMethod(launch.start), AwaitingSession(|s.wire.requests|));
    }
  }

  lemma {:induction false} MetKeepsSound(launch: Launch, s: System, agent: Agent)
    requires Sound(launch, s) && !s.handshake.Ready?
    requires exists id :: EndedWith(s.wire, id, Initialize, Agreed(agent))
    ensures Sound(launch, Met(launch, s, agent))
  {
    hide Inv;
    if Suits(launch, agent) {
      assert Agrees(launch, s.wire, agent);
      if launch.authentication.None? {
        OpenSessionKeepsSound(launch, s, agent);
      } else if launch.authentication.value in agent.authMethods {
        var call := Authenticate(launch.authentication.value);
        StepGrows(s.wire, Begin(call));
        GrowingKeepsCleared(launch, s.wire, Apply(s.wire, Begin(call)));
        AskKeepsSound(launch, s, call, AwaitingSignIn(|s.wire.requests|, agent));
      }
    }
  }

  lemma {:induction false} ChooseKeepsSound(launch: Launch, s: System, next: nat, offered: seq<Setting>)
    requires Sound(launch, s) && !s.handshake.Ready? && Cleared(launch, s.wire)
    ensures Sound(launch, Choose(launch, s, next, offered))
  {
    hide Inv;
    if next < |launch.settings| && ChoiceOf(offered, launch.settings[next]).Offered? {
      var call := SetOption(launch.settings[next].id, launch.settings[next].value);
      StepGrows(s.wire, Begin(call));
      GrowingKeepsCleared(launch, s.wire, Apply(s.wire, Begin(call)));
      AskKeepsSound(launch, s, call, AwaitingChoice(|s.wire.requests|, next, offered));
    }
  }

  lemma {:induction false} AdvanceKeepsSound(launch: Launch, s: System)
    requires Sound(launch, s) && CanAdvance(s)
    ensures Sound(launch, Advanced(launch, s))
  {
    hide Inv, Met, OpenSession, Choose;
    match s.handshake {
      case Idle =>
        AskKeepsSound(launch, s, Initialize, AwaitingAgent(0));
      case AwaitingAgent(id) =>
        var outcome := OutcomeOf(s.wire, id);
        if outcome.Answered? && outcome.reply.Result? && outcome.reply.value.Agreed? {
          assert EndedWith(s.wire, id, Initialize, Agreed(outcome.reply.value.agent));
          MetKeepsSound(launch, s, outcome.reply.value.agent);
        }
      case AwaitingSignIn(id, agent) =>
        var outcome := OutcomeOf(s.wire, id);
        if outcome.Answered? && outcome.reply.Result? {
          assert EndedWith(s.wire, id, Authenticate(launch.authentication.value), outcome.reply.value);
          OpenSessionKeepsSound(launch, s, agent);
        }
      case Choosing(next, offered) =>
        ChooseKeepsSound(launch, s, next, offered);
      case AwaitingSession(_) =>
      case AwaitingChoice(_, _, _) =>
    }
  }

  lemma {:induction false} PlaceKeepsSound(launch: Launch, s: System, kind: Kind)
    requires Sound(launch, s) && s.handshake.Ready?
    ensures Sound(launch, After(launch, s, Place(kind)))
  {
    var step := Begin(MethodOf(kind));
    StepKeepsInv(s.wire, step);
    StepGrows(s.wire, step);
    GrowingKeepsCleared(launch, s.wire, Apply(s.wire, step));
    hide Inv;
    var t := After(launch, s, Place(kind));
    forall k | 0 <= k < |t.calls|
      ensures CallInv(launch, t, k)
    {
      if k < |s.calls| {
        assert CallInv(launch, s, k);
      }
    }
    assert forall k :: 0 <= k < |s.calls| ==> CallInv(launch, s, k) && s.calls[k].id < |s.wire.requests|;
  }

  lemma {:induction false} SettleKeepsSound(launch: Launch, s: System, k: nat)
    requires Sound(launch, s) && CanSettle(s, k)
    ensures Sound(launch, After(launch, s, Settle(k)))
  {
    hide Inv;
    var t := After(launch, s, Settle(k));
    forall j | 0 <= j < |t.calls|
      ensures CallInv(launch, t, j)
    {
      assert CallInv(launch, s, j);
    }
  }

  lemma {:induction false} PlayIsSound(launch: Launch, from: System, moves: seq<Move>, to: System)
    requires Sound(launch, from) && Plays(launch, from, moves, to)
    ensures Sound(launch, to)
    decreases |moves|
  {
    if moves != [] {
      var next := After(launch, from, moves[0]);
      hide Inv, Sound;
      match moves[0] {
        case Wire(step) => WireKeepsSound(launch, from, step);
        case SpawnFails => StopKeepsSound(launch, from, Unavailable(Spawn));
        case Advance => AdvanceKeepsSound(launch, from);
        case Place(kind) =>
          PlaceKeepsSound(launch, from, kind);
        case Settle(k) => SettleKeepsSound(launch, from, k);
      }
      PlayIsSound(launch, next, moves[1..], to);
    }
  }

  lemma {:induction false} StopKeepsSound(launch: Launch, s: System, error: AcpError)
    requires Sound(launch, s) && !s.handshake.Ready?
    ensures Sound(launch, Stop(s, error))
  {
    hide Inv;
  }

  lemma {:induction false} RunIsSound(launch: Launch, moves: seq<Move>, s: System)
    requires Plays(launch, BEGINNING, moves, s)
    ensures Sound(launch, s)
  {
    PlayIsSound(launch, BEGINNING, moves, s);
  }

  // The safety claim, over every run: a failed opening never queued a prompt, and a
  // prompt's error allows a retry elsewhere exactly when its frame never left.
  lemma {:induction false} RetryMeansThePromptNeverLeft(launch: Launch, moves: seq<Move>, s: System)
    requires Plays(launch, BEGINNING, moves, s)
    ensures s.handshake.Failed? ==>
              forall id: nat :: RequestFrame(id) in s.wire.queued ==>
                id < |s.wire.requests| && s.wire.requests[id].call != Prompt && s.wire.requests[id].call != Steer
    ensures forall k :: 0 <= k < |s.calls| && s.calls[k].result.Wrong? && !s.calls[k].kind.SteerTurn? ==>
              (AllowsRetryElsewhere(s.calls[k].result.error) <==> RequestFrame(s.calls[k].id) !in s.wire.queued)
  {
    hide Plays, HandshakeInv, Cleared;
    RunIsSound(launch, moves, s);
    forall k | 0 <= k < |s.calls| && s.calls[k].result.Wrong? && !s.calls[k].kind.SteerTurn?
      ensures AllowsRetryElsewhere(s.calls[k].result.error) <==> RequestFrame(s.calls[k].id) !in s.wire.queued
    {
      assert CallInv(launch, s, k) && RequestInv(s.wire, s.calls[k].id);
    }
  }

  // A refusal or a failed turn is the agent's own answer to that very prompt: an error, and
  // the one that asks for a sign-in exactly when it is a refusal.
  lemma {:induction false} RefusalsAreAnswers(launch: Launch, moves: seq<Move>, s: System, k: nat)
    requires Plays(launch, BEGINNING, moves, s) && k < |s.calls| && s.calls[k].result.Wrong?
    requires s.calls[k].result.error.Refused? || s.calls[k].result.error.TurnFailed?
    ensures (s.calls[k].id, Failure(s.calls[k].result.error.Refused?)) in s.wire.received
  {
    hide Plays, HandshakeInv, Cleared;
    RunIsSound(launch, moves, s);
    assert CallInv(launch, s, k) && RequestInv(s.wire, s.calls[k].id);
  }

  // How a prompt ends is how its request ended: with the reason for the stop exactly when
  // the answer gives one that the schema names, in flight exactly when the frame left and no
  // such answer came, refused or failed exactly by the agent's own error, and open to a retry
  // exactly when the frame never left.
  lemma {:induction false} HowPromptsEnd(launch: Launch, moves: seq<Move>, s: System, k: nat)
    requires Plays(launch, BEGINNING, moves, s)
    requires k < |s.calls| && s.calls[k].kind.PromptTurn? && !s.calls[k].result.Running?
    ensures var id := s.calls[k].id;
            var result := s.calls[k].result;
            && id < |s.wire.requests| && s.wire.requests[id].call == Prompt && s.wire.requests[id].phase.Ended?
            && var outcome := s.wire.requests[id].phase.outcome;
               var stopped := outcome.Answered? && outcome.reply.Result? && outcome.reply.value.Stopped?;
               var word := if stopped then outcome.reply.value.word else "";
               var reason := if word == "refused" then "refusal" else word;
               && (result.Stops? <==> stopped && reason in launch.stopReasons)
               && (result.Stops? ==> result.reason == reason)
               && (result == Wrong(PromptInFlight) <==>
                     || outcome.Closed?
                     || outcome.TimedOut?
                     || (outcome.Answered? && outcome.reply.Result? && !(stopped && reason in launch.stopReasons)))
               && (result == Wrong(Refused(Authentication)) <==> outcome == Answered(Failure(true)))
               && (result == Wrong(TurnFailed) <==> outcome == Answered(Failure(false)))
               && (result == Wrong(Unavailable(Opening)) <==> outcome.NotSent?)
               && (outcome.NotSent? <==> RequestFrame(id) !in s.wire.queued)
  {
    hide Plays, HandshakeInv, Cleared;
    RunIsSound(launch, moves, s);
    assert CallInv(launch, s, k) && RequestInv(s.wire, s.calls[k].id);
    var outcome := s.wire.requests[s.calls[k].id].phase.outcome;
    if outcome.Answered? && outcome.reply.Result? && outcome.reply.value.Stopped? {
      var word := outcome.reply.value.word;
      var reason := if word == "refused" then "refusal" else word;
      assert Reads(launch, word, reason) <==> reason in launch.stopReasons;
    }
  }

  // A prompt whose answer is left unread is sent exactly when its frame was queued, and
  // otherwise its request has ended unsent.
  lemma {:induction false} HowSentPromptsEnd(launch: Launch, moves: seq<Move>, s: System, k: nat)
    requires Plays(launch, BEGINNING, moves, s)
    requires k < |s.calls| && s.calls[k].kind.SendPrompt? && !s.calls[k].result.Running?
    ensures s.calls[k].id < |s.wire.requests| && s.wire.requests[s.calls[k].id].call == Prompt
    ensures s.calls[k].result == Sent <==> RequestFrame(s.calls[k].id) in s.wire.queued
    ensures s.calls[k].result == Wrong(Unavailable(Opening)) <==>
              s.wire.requests[s.calls[k].id].phase == Ended(NotSent)
    ensures s.calls[k].result == Sent || s.calls[k].result == Wrong(Unavailable(Opening))
  {
    hide Plays, HandshakeInv, Cleared;
    RunIsSound(launch, moves, s);
    assert CallInv(launch, s, k) && RequestInv(s.wire, s.calls[k].id);
  }

  // A steer tells where its instruction went exactly when the agent answered with a result;
  // it was injected exactly when the answer says so.
  lemma {:induction false} HowSteersEnd(launch: Launch, moves: seq<Move>, s: System, k: nat)
    requires Plays(launch, BEGINNING, moves, s)
    requires k < |s.calls| && s.calls[k].kind.SteerTurn? && !s.calls[k].result.Running?
    ensures var id := s.calls[k].id;
            var result := s.calls[k].result;
            && id < |s.wire.requests| && s.wire.requests[id].call == Steer && s.wire.requests[id].phase.Ended?
            && var outcome := s.wire.requests[id].phase.outcome;
               && (result == Steers(Injected) <==> outcome == Answered(Result(Took("injected"))))
               && (forall said :: said != "injected" && said != "no outcome" ==>
                     (result == Steers(Elsewhere(said)) <==> outcome == Answered(Result(Took(said)))))
               && (result == Steers(Elsewhere("no outcome")) <==>
                     && outcome.Answered? && outcome.reply.Result?
                     && (outcome.reply.value.Took? ==> outcome.reply.value.outcome == "no outcome"))
               && (result == Wrong(Unavailable(Opening)) <==> !(outcome.Answered? && outcome.reply.Result?))
  {
    hide Plays, HandshakeInv, Cleared;
    RunIsSound(launch, moves, s);
    assert CallInv(launch, s, k);
  }

  // No two calls share a request. A call can be placed exactly on a ready session, and settles exactly once its request
  // has ended, or, for a prompt whose answer is left unread, once its frame is queued.
  lemma {:induction false} WhenCallsGo(launch: Launch, moves: seq<Move>, s: System)
    requires Plays(launch, BEGINNING, moves, s)
    ensures forall kind :: Possible(s, Place(kind)) <==> s.handshake == Ready
    ensures forall j, k :: 0 <= j < k < |s.calls| ==> s.calls[j].id != s.calls[k].id
    ensures forall k :: 0 <= k < |s.calls| ==> s.calls[k].id < |s.wire.requests|
    ensures forall k :: 0 <= k < |s.calls| ==>
              (Possible(s, Settle(k)) <==>
                 && s.calls[k].result == Running
                 && (|| s.wire.requests[s.calls[k].id].phase.Ended?
                     || (s.calls[k].kind == SendPrompt && RequestFrame(s.calls[k].id) in s.wire.queued)))
  {
    hide Plays, HandshakeInv, Cleared;
    RunIsSound(launch, moves, s);
    forall k | 0 <= k < |s.calls|
      ensures s.calls[k].id < |s.wire.requests|
      ensures Possible(s, Settle(k)) <==>
                && s.calls[k].result == Running
                && (|| s.wire.requests[s.calls[k].id].phase.Ended?
                    || (s.calls[k].kind == SendPrompt && RequestFrame(s.calls[k].id) in s.wire.queued))
    {
      assert CallInv(launch, s, k) && RequestInv(s.wire, s.calls[k].id);
    }
  }

  // Placing a call puts it last, with a new request of its kind; settling one gives it a result
  // and leaves the others alone; nothing else touches the calls.
  lemma {:induction false} CallsComeAndSettle(launch: Launch, s: System, move: Move)
    requires Possible(s, move)
    ensures var t := After(launch, s, move);
            match move
            case Place(kind) =>
              && t.calls == s.calls + [Call(kind, |s.wire.requests|, Running)]
              && t.wire.requests == s.wire.requests +
                   [Request(if kind == SteerTurn then Steer else Prompt, Allocated, Empty)]
            case Settle(k) =>
              && |t.calls| == |s.calls| && t.wire == s.wire
              && t.calls[k].kind == s.calls[k].kind && t.calls[k].id == s.calls[k].id
              && t.calls[k].result != Running
              && forall j :: 0 <= j < |s.calls| && j != k ==> t.calls[j] == s.calls[j]
            case _ => t.calls == s.calls
  {
    hide Suits, ChoiceOf;
  }

  // Nothing about a session is queued before `initialize` was answered by an agent that
  // suits and, where a sign-in was asked for, it completed.
  lemma {:induction false} NoSessionBeforeTheHandshake(launch: Launch, moves: seq<Move>, s: System, id: nat)
    requires Plays(launch, BEGINNING, moves, s)
    requires RequestFrame(id) in s.wire.queued
    ensures id < |s.wire.requests|
    ensures OfASession(s.wire.requests[id].call) ==> Cleared(launch, s.wire)
  {
    RunIsSound(launch, moves, s);
  }

  // `steer` stays outside the claim: one that was sent and then ran out of time fails
  // with an error that allows a retry elsewhere.
  lemma {:induction false} SteerIsNotRetrySafe(launch: Launch, moves: seq<Move>, s: System, k: nat)
    requires Plays(launch, BEGINNING, moves, s) && k < |s.calls| && s.calls[k].kind.SteerTurn?
    requires s.calls[k].id < |s.wire.requests| && s.calls[k].result.Running?
    requires s.wire.requests[s.calls[k].id].phase.Waiting?
    ensures exists more, t ::
              && Plays(launch, s, more, t) && k < |t.calls| && t.calls[k].id == s.calls[k].id
              && t.calls[k].result.Wrong? && AllowsRetryElsewhere(t.calls[k].result.error)
              && RequestFrame(t.calls[k].id) in t.wire.queued
  {
    RunIsSound(launch, moves, s);
    assert CallInv(launch, s, k) && RequestInv(s.wire, s.calls[k].id);
    SteerTimesOut(launch, s, k);
  }

  // Every failed `steer` allows a retry elsewhere; its frame never left if and only if its
  // request ended as not sent.
  lemma {:induction false} AFailedSteerIsSafeIff(launch: Launch, moves: seq<Move>, s: System, k: nat)
    requires Plays(launch, BEGINNING, moves, s)
    requires k < |s.calls| && s.calls[k].kind.SteerTurn? && s.calls[k].result.Wrong?
    ensures IsEnded(s.wire, s.calls[k].id) && AllowsRetryElsewhere(s.calls[k].result.error)
    ensures RequestFrame(s.calls[k].id) !in s.wire.queued <==> OutcomeOf(s.wire, s.calls[k].id) == NotSent
  {
    hide Plays, HandshakeInv, Cleared;
    RunIsSound(launch, moves, s);
    assert CallInv(launch, s, k) && RequestInv(s.wire, s.calls[k].id);
  }

  lemma {:induction false} SteerTimesOut(launch: Launch, s: System, k: nat)
    requires k < |s.calls| && s.calls[k].kind.SteerTurn? && s.calls[k].result.Running?
    requires At(s.wire, s.calls[k].id, Waiting) && RequestFrame(s.calls[k].id) in s.wire.queued
    ensures exists more, t ::
              && Plays(launch, s, more, t) && k < |t.calls| && t.calls[k].id == s.calls[k].id
              && t.calls[k].result.Wrong? && AllowsRetryElsewhere(t.calls[k].result.error)
              && RequestFrame(t.calls[k].id) in t.wire.queued
  {
    var id := s.calls[k].id;
    var late := After(launch, s, Wire(Expire(id)));
    var gone := After(launch, late, Wire(Forget(id)));
    var told := After(launch, gone, Settle(k));
    hide Plays;
    ThreeMoves(launch, s, Wire(Expire(id)), Wire(Forget(id)), Settle(k));
    assert Plays(launch, s, [Wire(Expire(id)), Wire(Forget(id)), Settle(k)], told);
  }

  lemma {:induction false} ThreeMoves(launch: Launch, s: System, a: Move, b: Move, c: Move)
    requires Possible(s, a) && Possible(After(launch, s, a), b)
    requires Possible(After(launch, After(launch, s, a), b), c)
    ensures Plays(launch, s, [a, b, c], After(launch, After(launch, After(launch, s, a), b), c))
  {
    hide Possible, After;
    var end := After(launch, After(launch, After(launch, s, a), b), c);
    assert [c][1..] == [] && [b, c][1..] == [c] && [a, b, c][1..] == [b, c];
    assert Plays(launch, end, [], end);
    assert Plays(launch, After(launch, After(launch, s, a), b), [c], end);
    assert Plays(launch, After(launch, s, a), [b, c], end);
  }
}
