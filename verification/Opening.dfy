// What the opening handshake of a session comes to (rust/crates/oga-acp/src/session.rs),
// told from the requests on the wire and their answers.
module Opening {
  import opened Basics
  import opened Connection
  import opened Protocol
  import opened Session

  predicate HasResult(wire: State, id: nat) {
    && id < |wire.requests|
    && wire.requests[id].phase.Ended?
    && wire.requests[id].phase.outcome.Answered?
    && wire.requests[id].phase.outcome.reply.Result?
  }

  function ResultAt(wire: State, id: nat): Value
    requires HasResult(wire, id)
  {
    wire.requests[id].phase.outcome.reply.value
  }

  predicate Asks(wire: State, id: nat, call: Method) {
    id < |wire.requests| && wire.requests[id].call == call
  }

  // The first setting of that name.
  predicate IsFirst(offered: seq<Setting>, id: string, k: nat) {
    && k < |offered|
    && offered[k].id == id
    && forall j :: 0 <= j < k ==> offered[j].id != id
  }

  // The session holds the value already.
  predicate IsHeld(offered: seq<Setting>, wanted: Wanted) {
    exists k :: 0 <= k < |offered| && IsFirst(offered, wanted.id, k) &&
      offered[k].Select? && offered[k].current == wanted.value
  }

  // The agent offers to change to it.
  predicate IsOffered(offered: seq<Setting>, wanted: Wanted) {
    exists k :: 0 <= k < |offered| && IsFirst(offered, wanted.id, k) &&
      offered[k].Select? && offered[k].current != wanted.value && wanted.value in offered[k].values
  }

  // Which of the two, if any, the search says.
  lemma {:induction false} ChoicesAreRead(offered: seq<Setting>, wanted: Wanted)
    ensures ChoiceOf(offered, wanted) == Held <==> IsHeld(offered, wanted)
    ensures ChoiceOf(offered, wanted) == Offered <==> IsOffered(offered, wanted)
  {
    if offered != [] {
      if offered[0].id == wanted.id {
        assert IsFirst(offered, wanted.id, 0);
      } else {
        ChoicesAreRead(offered[1..], wanted);
        var rest := offered[1..];
        forall k | 0 <= k < |rest|
          ensures IsFirst(rest, wanted.id, k) <==> IsFirst(offered, wanted.id, k + 1)
        {
          if IsFirst(rest, wanted.id, k) {
            forall j | 0 <= j < k + 1
              ensures offered[j].id != wanted.id
            {
              if j > 0 {
                assert offered[j] == rest[j - 1];
              }
            }
          }
          if IsFirst(offered, wanted.id, k + 1) {
            assert forall j :: 0 <= j < k ==> rest[j] == offered[j + 1];
          }
        }
        forall k | 0 <= k < |offered| && IsFirst(offered, wanted.id, k)
          ensures k > 0 && IsFirst(rest, wanted.id, k - 1) && rest[k - 1] == offered[k]
        {
        }
      }
    }
  }

  // A release of the line is its name, a dot and a patch number.
  predicate IsPatchOf(line: string, patch: string, version: string) {
    && version == line + "." + patch
    && patch != ""
    && forall c :: c in patch ==> c in "0123456789"
  }

  lemma {:induction false} DigitsAreTen(c: char)
    ensures IsDigit(c) <==> c in "0123456789"
  {
    var digits := "0123456789";
    if IsDigit(c) {
      assert digits[c as int - '0' as int] == c;
    }
  }

  lemma {:induction false} ReleasesAdmit(release: Release, info: Info)
    ensures Admits(release, info) <==>
              && info.name == release.name
              && match release.versions
                 case Build(build) => info.version == build
                 case Line(line) => exists patch :: IsPatchOf(line, patch, info.version)
  {
    if release.versions.Line? {
      var line, version := release.versions.line, info.version;
      if Admits(release, info) {
        var patch := version[|line| + 1..];
        assert version == line + "." + patch;
        forall c | c in patch
          ensures c in "0123456789"
        {
          DigitsAreTen(c);
        }
        assert IsPatchOf(line, patch, version);
      } else if info.name == release.name && exists patch :: IsPatchOf(line, patch, version) {
        var patch :| IsPatchOf(line, patch, version);
        forall i | |line| < i < |version|
          ensures IsDigit(version[i])
        {
          assert version[i] == patch[i - |line| - 1];
          DigitsAreTen(version[i]);
        }
      }
    }
  }

  // An agent suits when it speaks the version asked for and, where a release was asked for,
  // says that it is that very build or a patch release of that line.
  lemma {:induction false} AgentsSuitIff(launch: Launch, agent: Agent)
    ensures Suits(launch, agent) <==>
              && agent.version == launch.version
              && (launch.release.Some? ==>
                    && agent.info.Some?
                    && agent.info.value.name == launch.release.value.name
                    && match launch.release.value.versions
                       case Build(build) => agent.info.value.version == build
                       case Line(line) => exists patch :: IsPatchOf(line, patch, agent.info.value.version))
  {
    if launch.release.Some? && agent.info.Some? {
      ReleasesAdmit(launch.release.value, agent.info.value);
    }
  }

  // The requests of an opening: `initialize`, a sign-in if one was asked for, the session's
  // and one for each setting that has to be changed.
  function SessionId(launch: Launch): nat {
    if launch.authentication.Some? then 2 else 1
  }

  predicate Greeted(launch: Launch, wire: State) {
    && Asks(wire, 0, Initialize)
    && HasResult(wire, 0)
    && ResultAt(wire, 0).Agreed?
    && Suits(launch, ResultAt(wire, 0).agent)
  }

  predicate CanSignIn(launch: Launch, wire: State)
    requires Greeted(launch, wire)
  {
    launch.authentication.Some? ==> launch.authentication.value in ResultAt(wire, 0).agent.authMethods
  }

  predicate CanStart(launch: Launch, wire: State)
    requires Greeted(launch, wire)
  {
    && (launch.start == Load ==> ResultAt(wire, 0).agent.canLoad)
    && (launch.start == Resume ==> ResultAt(wire, 0).agent.canResume)
  }

  predicate Opens(launch: Launch, wire: State) {
    && Greeted(launch, wire) && CanSignIn(launch, wire) && CanStart(launch, wire)
    && (launch.authentication.Some? ==>
          Asks(wire, 1, Authenticate(launch.authentication.value)) && HasResult(wire, 1))
    && (launch.start == New ==> Asks(wire, SessionId(launch), SessionNew))
    && (launch.start == Load ==> Asks(wire, SessionId(launch), SessionLoad))
    && (launch.start == Resume ==> Asks(wire, SessionId(launch), SessionResume))
  }

  function Updated(offered: seq<Setting>, value: Value): seq<Setting> {
    if value.Opened? then value.offered else offered
  }

  // A change was answered, with what the agent advertises from then on or with nothing about it.
  predicate IsAnswered(wire: State, id: nat, before: seq<Setting>, after: seq<Setting>) {
    HasResult(wire, id) && after == Updated(before, ResultAt(wire, id))
  }

  // What the agent had last advertised after so many changes, all of them answered.
  predicate Advertised(launch: Launch, wire: State, offers: seq<seq<Setting>>) {
    var id := SessionId(launch);
    && |offers| > 0
    && IsAnswered(wire, id, [], offers[0])
    && (launch.start == New ==> ResultAt(wire, id).Opened?)
    && forall j :: 0 < j < |offers| ==> IsAnswered(wire, id + j, offers[j - 1], offers[j])
  }

  // One setting: held, set by the next change, or left to the agent.
  predicate IsDone(launch: Launch, wire: State, wanted: Wanted, offered: seq<Setting>, from: nat, to: nat) {
    if IsHeld(offered, wanted) then to == from
    else if IsOffered(offered, wanted) then
      to == from + 1 && Asks(wire, SessionId(launch) + to, SetOption(wanted.id, wanted.value))
    else to == from && !wanted.required
  }

  // The first `next` settings are done: `at` says how many changes were made ahead of each.
  predicate WentThrough(launch: Launch, wire: State, next: nat, at: seq<nat>, offers: seq<seq<Setting>>) {
    && next <= |launch.settings|
    && |at| == next + 1 && at[0] == 0 && at[next] + 1 == |offers|
    && Advertised(launch, wire, offers)
    && (forall i :: 0 <= i <= next ==> at[i] < |offers|)
    && forall i :: 0 <= i < next ==>
         IsDone(launch, wire, launch.settings[i], offers[at[i]], at[i], at[i + 1])
  }

  // A handshake step that did not come to a usable answer.
  function StepError(outcome: Outcome, stage: Stage): AcpError {
    if outcome == Answered(Failure(true)) then Refused(Authentication) else Unavailable(stage)
  }

  predicate GreetingFails(launch: Launch, wire: State, error: AcpError) {
    && |wire.requests| == 1 && Asks(wire, 0, Initialize) && IsEnded(wire, 0)
    && if Greeted(launch, wire) then
         || (!CanSignIn(launch, wire) && error == Refused(Authentication))
         || (launch.authentication.None? && !CanStart(launch, wire) && error == Unavailable(Opening))
       else if HasResult(wire, 0) then error == Unavailable(Initializing)
       else error == StepError(OutcomeOf(wire, 0), Initializing)
  }

  predicate SignInFails(launch: Launch, wire: State, error: AcpError) {
    && launch.authentication.Some? && |wire.requests| == 2
    && Greeted(launch, wire) && CanSignIn(launch, wire)
    && Asks(wire, 1, Authenticate(launch.authentication.value)) && IsEnded(wire, 1)
    && if HasResult(wire, 1) then !CanStart(launch, wire) && error == Unavailable(Opening)
       else if OutcomeOf(wire, 1).Answered? then error == Refused(Authentication)
       else error == Unavailable(Initializing)
  }

  predicate SessionFails(launch: Launch, wire: State, error: AcpError) {
    var id := SessionId(launch);
    && Opens(launch, wire) && |wire.requests| == id + 1 && IsEnded(wire, id)
    && !(HasResult(wire, id) && (launch.start == New ==> ResultAt(wire, id).Opened?))
    && error == StepError(OutcomeOf(wire, id), Opening)
  }

  // The first settings are done and the next cannot be: a required one is not to be had, or
  // the request to change it came to nothing.
  predicate SettingFails(launch: Launch, wire: State, error: AcpError, next: nat, at: seq<nat>,
                         offers: seq<seq<Setting>>) {
    && Opens(launch, wire) && next < |launch.settings|
    && WentThrough(launch, wire, next, at, offers)
    && var wanted := launch.settings[next];
       var offered := offers[|offers| - 1];
       var id := SessionId(launch) + |offers|;
       && !IsHeld(offered, wanted)
       && if IsOffered(offered, wanted) then
            && |wire.requests| == id + 1
            && Asks(wire, id, SetOption(wanted.id, wanted.value)) && IsEnded(wire, id) && !HasResult(wire, id)
            && error == StepError(OutcomeOf(wire, id), Configuring)
          else |wire.requests| == id && wanted.required && error == Unavailable(Configuring)
  }

  // What a failed opening's error stands for.
  ghost predicate Explains(launch: Launch, wire: State, error: AcpError) {
    || (wire.requests == [] && error == Unavailable(Spawn))
    || GreetingFails(launch, wire, error)
    || SignInFails(launch, wire, error)
    || SessionFails(launch, wire, error)
    || exists next: nat, at, offers :: SettingFails(launch, wire, error, next, at, offers)
  }

  ghost predicate IsChoosing(launch: Launch, wire: State, next: nat, offered: seq<Setting>, asked: nat) {
    Opens(launch, wire) && exists at, offers ::
      && WentThrough(launch, wire, next, at, offers)
      && offers[|offers| - 1] == offered
      && |wire.requests| == SessionId(launch) + |offers| + asked
  }

  // Every required setting is held or was set, and the others where the agent offers them.
  ghost predicate IsOpened(launch: Launch, wire: State) {
    Opens(launch, wire) && exists at, offers :: WentThrough(launch, wire, |launch.settings|, at, offers)
  }

  ghost predicate OpeningInv(launch: Launch, s: System) {
    match s.handshake
    case Idle => s.wire.requests == []
    case AwaitingAgent(id) => id == 0 && |s.wire.requests| == 1 && Asks(s.wire, 0, Initialize)
    case AwaitingSignIn(id, agent) =>
      && id == 1 && launch.authentication.Some? && |s.wire.requests| == 2
      && Greeted(launch, s.wire) && CanSignIn(launch, s.wire) && agent == ResultAt(s.wire, 0).agent
      && Asks(s.wire, 1, Authenticate(launch.authentication.value))
    case AwaitingSession(id) =>
      Opens(launch, s.wire) && id == SessionId(launch) && |s.wire.requests| == id + 1
    case Choosing(next, offered) => IsChoosing(launch, s.wire, next, offered, 0)
    case AwaitingChoice(id, next, offered) =>
      && IsChoosing(launch, s.wire, next, offered, 1)
      && id == |s.wire.requests| - 1 && next < |launch.settings|
      && !IsHeld(offered, launch.settings[next]) && IsOffered(offered, launch.settings[next])
      && Asks(s.wire, id, SetOption(launch.settings[next].id, launch.settings[next].value))
    case Ready => IsOpened(launch, s.wire)
    case Failed(error) => Explains(launch, s.wire, error)
  }

  // Nothing that was told of the wire is taken back by a step of its own or another request.
  lemma {:induction false} GrowingKeepsOpened(launch: Launch, from: State, to: State)
    requires Grows(from, to)
    ensures Greeted(launch, from) ==> Greeted(launch, to) && ResultAt(to, 0) == ResultAt(from, 0)
    ensures Opens(launch, from) ==> Opens(launch, to)
    ensures forall next, at, offers :: WentThrough(launch, from, next, at, offers) ==>
              WentThrough(launch, to, next, at, offers)
  {
    forall next, at, offers | WentThrough(launch, from, next, at, offers)
      ensures WentThrough(launch, to, next, at, offers)
    {
      GrowingKeepsDone(launch, from, to, next, at, offers);
    }
  }

  lemma {:induction false} GrowingKeepsDone(launch: Launch, from: State, to: State, next: nat, at: seq<nat>,
                                            offers: seq<seq<Setting>>)
    requires Grows(from, to) && WentThrough(launch, from, next, at, offers)
    ensures WentThrough(launch, to, next, at, offers)
  {
    var id := SessionId(launch);
    forall j | 0 < j < |offers|
      ensures IsAnswered(to, id + j, offers[j - 1], offers[j])
    {
      assert IsAnswered(from, id + j, offers[j - 1], offers[j]);
    }
    hide IsHeld, IsOffered;
    forall i | 0 <= i < next
      ensures IsDone(launch, to, launch.settings[i], offers[at[i]], at[i], at[i + 1])
    {
      assert IsDone(launch, from, launch.settings[i], offers[at[i]], at[i], at[i + 1]);
    }
  }

  lemma {:induction false} GrowingKeepsExplained(launch: Launch, from: State, to: State, error: AcpError)
    requires Grows(from, to) && |to.requests| == |from.requests|
    ensures Explains(launch, from, error) ==> Explains(launch, to, error)
  {
    hide IsHeld, IsOffered, WentThrough, Suits;
    GrowingKeepsOpened(launch, from, to);
    if next: nat, at, offers :| SettingFails(launch, from, error, next, at, offers) {
      assert WentThrough(launch, to, next, at, offers);
      assert SettingFails(launch, to, error, next, at, offers);
    }
  }

  lemma {:induction false} GrowingKeepsChoosing(launch: Launch, from: State, to: State, next: nat,
                                                offered: seq<Setting>, asked: nat)
    requires Grows(from, to) && |to.requests| == |from.requests|
    requires IsChoosing(launch, from, next, offered, asked)
    ensures IsChoosing(launch, to, next, offered, asked)
  {
    hide Opens;
    GrowingKeepsOpened(launch, from, to);
    var at, offers :| WentThrough(launch, from, next, at, offers) && offers[|offers| - 1] == offered &&
      |from.requests| == SessionId(launch) + |offers| + asked;
    assert WentThrough(launch, to, next, at, offers);
  }

  lemma {:induction false} WireKeepsOpening(launch: Launch, s: System, step: Step)
    requires OpeningInv(launch, s) && !step.Begin? && Enabled(s.wire, step)
    ensures OpeningInv(launch, s.(wire := Apply(s.wire, step)))
  {
    StepGrows(s.wire, step);
    var t := s.(wire := Apply(s.wire, step));
    hide Apply, Enabled, Explains, IsHeld, IsOffered, IsChoosing, WentThrough;
    GrowingKeepsOpened(launch, s.wire, t.wire);
    match s.handshake {
      case Failed(error) => GrowingKeepsExplained(launch, s.wire, t.wire, error);
      case Choosing(next, offered) => GrowingKeepsChoosing(launch, s.wire, t.wire, next, offered, 0);
      case AwaitingChoice(_, next, offered) => GrowingKeepsChoosing(launch, s.wire, t.wire, next, offered, 1);
      case _ =>
    }
  }

  lemma {:induction false} AskGrows(launch: Launch, s: System, call: Method, handshake: Handshake)
    ensures var t := Asked(s, call, handshake);
            && Grows(s.wire, t.wire) && |t.wire.requests| == |s.wire.requests| + 1
            && Asks(t.wire, |s.wire.requests|, call)
  {
    StepGrows(s.wire, Begin(call));
  }

  lemma {:induction false} OpenSessionKeepsOpening(launch: Launch, s: System, agent: Agent)
    requires Greeted(launch, s.wire) && CanSignIn(launch, s.wire) && agent == ResultAt(s.wire, 0).agent
    requires |s.wire.requests| == SessionId(launch)
    requires launch.authentication.Some? ==>
               Asks(s.wire, 1, Authenticate(launch.authentication.value)) && HasResult(s.wire, 1)
    ensures OpeningInv(launch, OpenSession(launch, s, agent))
  {
    hide Suits, WentThrough;
    AskGrows(launch, s, StartMethod(launch.start), AwaitingSession(|s.wire.requests|));
    GrowingKeepsOpened(launch, s.wire, Apply(s.wire, Begin(StartMethod(launch.start))));
  }

  lemma {:induction false} MetKeepsOpening(launch: Launch, s: System)
    requires |s.wire.requests| == 1 && Asks(s.wire, 0, Initialize)
    requires HasResult(s.wire, 0) && ResultAt(s.wire, 0).Agreed?
    ensures OpeningInv(launch, Met(launch, s, ResultAt(s.wire, 0).agent))
  {
    hide WentThrough;
    var agent := ResultAt(s.wire, 0).agent;
    if Suits(launch, agent) {
      if launch.authentication.None? {
        OpenSessionKeepsOpening(launch, s, agent);
      } else if launch.authentication.value in agent.authMethods {
        var call := Authenticate(launch.authentication.value);
        AskGrows(launch, s, call, AwaitingSignIn(1, agent));
        GrowingKeepsOpened(launch, s.wire, Apply(s.wire, Begin(call)));
      }
    }
  }

  lemma {:induction false} ChooseKeepsOpening(launch: Launch, s: System, next: nat, offered: seq<Setting>)
    requires IsChoosing(launch, s.wire, next, offered, 0)
    ensures OpeningInv(launch, Choose(launch, s, next, offered))
  {
    hide Opens, IsHeld, IsOffered, Apply;
    var at, offers :| WentThrough(launch, s.wire, next, at, offers) && offers[|offers| - 1] == offered &&
      |s.wire.requests| == SessionId(launch) + |offers|;
    if next < |launch.settings| {
      var wanted := launch.settings[next];
      ChoicesAreRead(offered, wanted);
      if IsOffered(offered, wanted) && !IsHeld(offered, wanted) {
        var call := SetOption(wanted.id, wanted.value);
        AskGrows(launch, s, call, AwaitingChoice(|s.wire.requests|, next, offered));
        var t := Asked(s, call, AwaitingChoice(|s.wire.requests|, next, offered));
        GrowingKeepsOpened(launch, s.wire, t.wire);
        assert WentThrough(launch, t.wire, next, at, offers);
      } else if !IsHeld(offered, wanted) && wanted.required {
        assert SettingFails(launch, s.wire, Unavailable(Configuring), next, at, offers);
      } else {
        assert WentThrough(launch, s.wire, next + 1, at + [at[next]], offers);
      }
    }
  }

  lemma {:induction false} SessionAnswered(launch: Launch, s: System)
    requires OpeningInv(launch, s) && s.handshake.AwaitingSession? && HasResult(s.wire, s.handshake.id)
    requires launch.start == New ==> ResultAt(s.wire, s.handshake.id).Opened?
    ensures IsChoosing(launch, s.wire, 0, Updated([], ResultAt(s.wire, s.handshake.id)), 0)
  {
    hide Opens, IsDone;
    var offered := Updated([], ResultAt(s.wire, s.handshake.id));
    assert IsAnswered(s.wire, s.handshake.id, [], offered);
    assert WentThrough(launch, s.wire, 0, [0], [offered]);
  }

  lemma {:induction false} ChoiceAnswered(launch: Launch, s: System)
    requires OpeningInv(launch, s) && s.handshake.AwaitingChoice? && HasResult(s.wire, s.handshake.id)
    ensures IsChoosing(launch, s.wire, s.handshake.next + 1,
                       Updated(s.handshake.offered, ResultAt(s.wire, s.handshake.id)), 0)
  {
    hide Opens, IsHeld, IsOffered;
    var next, offered := s.handshake.next, s.handshake.offered;
    var at, offers :| WentThrough(launch, s.wire, next, at, offers) && offers[|offers| - 1] == offered &&
      |s.wire.requests| == SessionId(launch) + |offers| + 1;
    var after := Updated(offered, ResultAt(s.wire, s.handshake.id));
    var at', offers' := at + [at[next] + 1], offers + [after];
    assert IsAnswered(s.wire, SessionId(launch) + |offers|, offers'[|offers| - 1], offers'[|offers|]);
    assert Advertised(launch, s.wire, offers');
    assert IsDone(launch, s.wire, launch.settings[next], offers'[at'[next]], at'[next], at'[next + 1]);
    assert WentThrough(launch, s.wire, next + 1, at', offers');
  }

  lemma {:induction false} ChoiceFails(launch: Launch, s: System)
    requires OpeningInv(launch, s) && s.handshake.AwaitingChoice?
    requires IsEnded(s.wire, s.handshake.id) && !HasResult(s.wire, s.handshake.id)
    ensures Explains(launch, s.wire, StepError(OutcomeOf(s.wire, s.handshake.id), Configuring))
  {
    hide Opens, IsHeld, IsOffered;
    var at, offers :| WentThrough(launch, s.wire, s.handshake.next, at, offers) &&
      offers[|offers| - 1] == s.handshake.offered && |s.wire.requests| == SessionId(launch) + |offers| + 1;
    assert SettingFails(launch, s.wire, StepError(OutcomeOf(s.wire, s.handshake.id), Configuring),
                        s.handshake.next, at, offers);
  }

  lemma {:induction false} AdvanceKeepsOpening(launch: Launch, s: System)
    requires OpeningInv(launch, s) && CanAdvance(s)
    ensures OpeningInv(launch, Advanced(launch, s))
  {
    hide Met, OpenSession, Choose, Suits, IsHeld, IsOffered, WentThrough;
    match s.handshake {
      case Idle =>
        AskGrows(launch, s, Initialize, AwaitingAgent(0));
      case AwaitingAgent(id) =>
        if HasResult(s.wire, 0) && ResultAt(s.wire, 0).Agreed? {
          MetKeepsOpening(launch, s);
        }
      case AwaitingSignIn(id, agent) =>
        if HasResult(s.wire, 1) {
          OpenSessionKeepsOpening(launch, s, agent);
        }
      case AwaitingSession(id) =>
        if HasResult(s.wire, id) && (launch.start == New ==> ResultAt(s.wire, id).Opened?) {
          SessionAnswered(launch, s);
        }
      case Choosing(next, offered) =>
        ChooseKeepsOpening(launch, s, next, offered);
      case AwaitingChoice(id, _, _) =>
        if HasResult(s.wire, id) {
          ChoiceAnswered(launch, s);
        } else {
          ChoiceFails(launch, s);
        }
    }
  }

  lemma {:induction false} PlayKeepsOpening(launch: Launch, from: System, moves: seq<Move>, to: System)
    requires OpeningInv(launch, from) && Plays(launch, from, moves, to)
    ensures OpeningInv(launch, to)
    decreases |moves|
  {
    if moves != [] {
      hide Apply, Advanced, Suits, IsHeld, IsOffered, WentThrough, GreetingFails, SignInFails, SessionFails;
      match moves[0] {
        case Wire(step) => WireKeepsOpening(launch, from, step);
        case Advance => AdvanceKeepsOpening(launch, from);
        case Place(kind) =>
          StepGrows(from.wire, Begin(MethodOf(kind)));
          GrowingKeepsOpened(launch, from.wire, Apply(from.wire, Begin(MethodOf(kind))));
        case SpawnFails =>
        case Settle(_) =>
      }
      PlayKeepsOpening(launch, After(launch, from, moves[0]), moves[1..], to);
    }
  }

  lemma {:induction false} RunKeepsOpening(launch: Launch, moves: seq<Move>, s: System)
    requires Plays(launch, BEGINNING, moves, s)
    ensures OpeningInv(launch, s)
  {
    PlayKeepsOpening(launch, BEGINNING, moves, s);
  }

  // What the wire shows leaves no choice: how far it tells, two tellings agree.
  lemma {:induction false} AdvertsAgree(launch: Launch, wire: State, offers: seq<seq<Setting>>,
                                        others: seq<seq<Setting>>, j: nat)
    requires Advertised(launch, wire, offers) && Advertised(launch, wire, others)
    requires j < |offers| && j < |others|
    ensures offers[j] == others[j]
  {
    if j > 0 {
      AdvertsAgree(launch, wire, offers, others, j - 1);
      assert IsAnswered(wire, SessionId(launch) + j, offers[j - 1], offers[j]);
      assert IsAnswered(wire, SessionId(launch) + j, others[j - 1], others[j]);
    }
  }

  lemma {:induction false} PlacesAgree(launch: Launch, wire: State, next: nat, at: seq<nat>,
                                       offers: seq<seq<Setting>>, last: nat, places: seq<nat>,
                                       others: seq<seq<Setting>>, i: nat)
    requires WentThrough(launch, wire, next, at, offers) && WentThrough(launch, wire, last, places, others)
    requires i <= next && i <= last
    ensures at[i] == places[i] && offers[at[i]] == others[at[i]]
  {
    hide IsHeld, IsOffered, Advertised;
    if i > 0 {
      PlacesAgree(launch, wire, next, at, offers, last, places, others, i - 1);
      assert IsDone(launch, wire, launch.settings[i - 1], offers[at[i - 1]], at[i - 1], at[i]);
      assert IsDone(launch, wire, launch.settings[i - 1], others[at[i - 1]], places[i - 1], places[i]);
    }
    AdvertsAgree(launch, wire, offers, others, at[i]);
  }

  // Once every setting is done, so is the next after any number of them.
  lemma {:induction false} NextIsDone(launch: Launch, wire: State, next: nat, at: seq<nat>, offers: seq<seq<Setting>>,
                                      places: seq<nat>, others: seq<seq<Setting>>)
    requires WentThrough(launch, wire, next, at, offers) && next < |launch.settings|
    requires WentThrough(launch, wire, |launch.settings|, places, others)
    ensures IsDone(launch, wire, launch.settings[next], offers[|offers| - 1], at[next], places[next + 1])
    ensures places[next + 1] == |offers| ==> HasResult(wire, SessionId(launch) + |offers|)
  {
    hide IsHeld, IsOffered;
    PlacesAgree(launch, wire, next, at, offers, |launch.settings|, places, others, next);
    assert IsDone(launch, wire, launch.settings[next], others[places[next]], places[next], places[next + 1]);
    if places[next + 1] == |offers| {
      assert IsAnswered(wire, SessionId(launch) + |offers|, others[|offers| - 1], others[|offers|]);
    }
  }

  lemma {:induction false} FailedIsNotOpened(launch: Launch, wire: State, error: AcpError)
    requires Explains(launch, wire, error)
    ensures !IsOpened(launch, wire)
  {
    hide IsHeld, IsOffered, Suits;
    if Opens(launch, wire) {
      forall places, others | WentThrough(launch, wire, |launch.settings|, places, others)
        ensures HasResult(wire, SessionId(launch))
        ensures launch.start == New ==> ResultAt(wire, SessionId(launch)).Opened?
        ensures forall next: nat, at, offers :: !SettingFails(launch, wire, error, next, at, offers)
      {
        forall next: nat, at, offers | SettingFails(launch, wire, error, next, at, offers)
          ensures false
        {
          NextIsDone(launch, wire, next, at, offers, places, others);
        }
      }
    }
  }

  // Over every run, an opening that has come to its end is ready exactly when the agent suits,
  // the sign-in and the session were answered, and each setting in its turn was held, was
  // set, or is not required and was not to be had.
  lemma {:induction false} ReadyIff(launch: Launch, moves: seq<Move>, s: System)
    requires Plays(launch, BEGINNING, moves, s) && (s.handshake.Ready? || s.handshake.Failed?)
    ensures s.handshake.Ready? <==> IsOpened(launch, s.wire)
  {
    RunKeepsOpening(launch, moves, s);
    if s.handshake.Failed? {
      FailedIsNotOpened(launch, s.wire, s.handshake.error);
    }
  }

  // Over every run, the error of a failed opening says what came of its last request, or what
  // kept it from making the next one.
  lemma {:induction false} FailuresAreExplained(launch: Launch, moves: seq<Move>, s: System)
    requires Plays(launch, BEGINNING, moves, s) && s.handshake.Failed?
    ensures Explains(launch, s.wire, s.handshake.error)
  {
    RunKeepsOpening(launch, moves, s);
  }

  // An opening never stalls: it moves on exactly when its last request has ended, or before
  // it has made any.
  lemma {:induction false} OpeningsDoNotStall(launch: Launch, moves: seq<Move>, s: System)
    requires Plays(launch, BEGINNING, moves, s) && !s.handshake.Ready? && !s.handshake.Failed?
    ensures Possible(s, Advance) <==>
              s.wire.requests == [] || s.wire.requests[|s.wire.requests| - 1].phase.Ended?
    ensures Possible(s, SpawnFails) <==> s.wire.requests == []
  {
    RunKeepsOpening(launch, moves, s);
    if s.handshake.Choosing? {
      var at, offers :| WentThrough(launch, s.wire, s.handshake.next, at, offers) &&
        |s.wire.requests| == SessionId(launch) + |offers|;
      var j := |offers| - 1;
      assert IsAnswered(s.wire, SessionId(launch) + j, if j == 0 then [] else offers[j - 1], offers[j]);
    }
  }

  // How many moves an opening has left at the most.
  function Left(launch: Launch, handshake: Handshake): nat {
    match handshake
    case Idle => 2 * |launch.settings| + 5
    case AwaitingAgent(_) => 2 * |launch.settings| + 4
    case AwaitingSignIn(_, _) => 2 * |launch.settings| + 3
    case AwaitingSession(_) => 2 * |launch.settings| + 2
    case Choosing(next, _) => if next <= |launch.settings| then 2 * (|launch.settings| - next) + 1 else 1
    case AwaitingChoice(_, next, _) => if next <= |launch.settings| then 2 * (|launch.settings| - next) else 0
    case Ready => 0
    case Failed(_) => 0
  }

  // An opening comes to an end: every move of its own leaves it fewer, and only its own change
  // where it stands.
  lemma {:induction false} OpeningsComeToAnEnd(launch: Launch, moves: seq<Move>, s: System, move: Move)
    requires Plays(launch, BEGINNING, moves, s) && Possible(s, move)
    ensures move == Advance || move == SpawnFails ==>
              Left(launch, After(launch, s, move).handshake) < Left(launch, s.handshake)
    ensures move != Advance && move != SpawnFails ==> After(launch, s, move).handshake == s.handshake
    ensures Left(launch, s.handshake) == 0 <==> s.handshake == Ready || s.handshake.Failed?
  {
    hide Apply, Suits, ChoiceOf, Explains, OpeningInv;
    RunKeepsOpening(launch, moves, s);
    SettingsAreCounted(launch, s);
  }

  lemma {:induction false} SettingsAreCounted(launch: Launch, s: System)
    requires OpeningInv(launch, s)
    ensures s.handshake.Choosing? ==> s.handshake.next <= |launch.settings|
    ensures s.handshake.AwaitingChoice? ==> s.handshake.next < |launch.settings|
  {
    hide Opens, Advertised, IsDone, Explains;
  }
}
