// The toast store (web/src/state/toast.ts): messages that go away by themselves, and the
// timers that see to it.
module Toasts {
  import opened Basics
  import opened Lists

  const AUTO_DISMISS: int := 4_000
  const MAX_TOASTS: nat := 5
  const PENDING_STALL: int := 30_000

  datatype Kind = Success | Error | Info | Pending

  // What is left of a toast's time, and when it will be up unless it is paused.
  datatype Toast = Toast(id: nat, kind: Kind, remaining: Option<int>, deadline: Option<int>)

  datatype Timer = Dismissal(id: nat, due: int) | Stall(id: nat, due: int)

  // The store with the clock it set its timers on: the timers by handle.
  datatype Store = Store(
    toasts: seq<Toast>,
    timers: map<nat, nat>,
    stallTimers: map<nat, nat>,
    nextId: nat,
    clock: map<nat, Timer>,
    nextHandle: nat)

  const EMPTY := Store([], map[], map[], 1, map[], 0)

  function Find(toasts: seq<Toast>, id: nat): (r: Option<Toast>)
    ensures r.Some? ==> r.value in toasts && r.value.id == id
    ensures r.None? ==> forall toast :: toast in toasts ==> toast.id != id
  {
    if toasts == [] then None
    else
      var rest, last := Find(toasts[..|toasts| - 1], id), toasts[|toasts| - 1];
      assert toasts == toasts[..|toasts| - 1] + [last];
      if rest.Some? then rest else if last.id == id then Some(last) else None
  }

  // --- What the store does ---

  function CancelTimer(s: Store, id: nat): Store {
    if id in s.timers then s.(clock := s.clock - {s.timers[id]}, timers := s.timers - {id}) else s
  }

  function CancelStall(s: Store, id: nat): Store {
    if id in s.stallTimers then s.(clock := s.clock - {s.stallTimers[id]}, stallTimers := s.stallTimers - {id}) else s
  }

  function Schedule(s: Store, id: nat, due: int): Store {
    var c := CancelTimer(s, id);
    c.(timers := c.timers[id := c.nextHandle], clock := c.clock[c.nextHandle := Dismissal(id, due)],
       nextHandle := c.nextHandle + 1)
  }

  function CancelBoth(s: Store, toasts: seq<Toast>): Store {
    if toasts == [] then s
    else CancelStall(CancelTimer(CancelBoth(s, toasts[..|toasts| - 1]), toasts[|toasts| - 1].id),
        toasts[|toasts| - 1].id)
  }

  function Remaining(kind: Kind): Option<int> {
    if kind.Success? || kind.Info? then Some(AUTO_DISMISS) else None
  }

  function After(remaining: Option<int>, now: int): Option<int> {
    if remaining.Some? then Some(now + remaining.value) else None
  }

  function Excess(toasts: seq<Toast>): (n: nat)
    ensures n <= |toasts|
  {
    if |toasts| + 1 > MAX_TOASTS then |toasts| + 1 - MAX_TOASTS else 0
  }

  function Added(s: Store, kind: Kind, now: int): Toast {
    Toast(s.nextId, kind, Remaining(kind), After(Remaining(kind), now))
  }

  function Add(s: Store, kind: Kind, now: int): Store {
    var toast := Added(s, kind, now);
    var over := Excess(s.toasts);
    var c := CancelBoth(s.(nextId := s.nextId + 1), s.toasts[..over]).(toasts := s.toasts[over..] + [toast]);
    if toast.deadline.Some? then Schedule(c, toast.id, toast.deadline.value) else c
  }

  function AddPending(s: Store, now: int): Store {
    SetStall(Add(s, Pending, now), s.nextId, now + PENDING_STALL)
  }

  function SetStall(s: Store, id: nat, due: int): Store {
    s.(stallTimers := s.stallTimers[id := s.nextHandle], clock := s.clock[s.nextHandle := Stall(id, due)],
       nextHandle := s.nextHandle + 1)
  }

  function Replaced(toasts: seq<Toast>, toast: Toast): seq<Toast> {
    seq(|toasts|, i requires 0 <= i < |toasts| => if toasts[i].id == toast.id then toast else toasts[i])
  }

  function IsOther(id: nat): Toast -> bool {
    (toast: Toast) => toast.id != id
  }

  function Others(toasts: seq<Toast>, id: nat): (others: seq<Toast>)
    ensures forall toast :: toast in others <==> toast in toasts && toast.id != id
    ensures |others| <= |toasts|
  {
    Filter(toasts, IsOther(id))
  }

  // A toast that was pending, or was settled before, becomes a success or an error.
  function Resolve(s: Store, id: nat, kind: Kind, now: int): Store {
    if Find(s.toasts, id).None? then s
    else
      var remaining := if kind.Success? then Some(AUTO_DISMISS) else None;
      var toast := Toast(id, kind, remaining, After(remaining, now));
      var c := CancelTimer(s, id).(toasts := Replaced(s.toasts, toast));
      if toast.deadline.Some? then Schedule(c, id, toast.deadline.value) else c
  }

  function Dismiss(s: Store, id: nat): Store {
    if Find(s.toasts, id).None? then s
    else CancelStall(CancelTimer(s, id), id).(toasts := Others(s.toasts, id))
  }

  function Clear(s: Store): Store {
    CancelBoth(s, s.toasts).(toasts := [])
  }

  function Paused(toast: Toast, now: int): Toast {
    if toast.remaining.None? || toast.deadline.None? then toast
    else
      var left := toast.deadline.value - now;
      toast.(remaining := Some(if left > 0 then left else 0), deadline := None)
  }

  function PausedAll(toasts: seq<Toast>, now: int): seq<Toast> {
    seq(|toasts|, i requires 0 <= i < |toasts| => Paused(toasts[i], now))
  }

  function CancelTimed(s: Store, toasts: seq<Toast>): Store {
    if toasts == [] then s
    else
      var c := CancelTimed(s, toasts[..|toasts| - 1]);
      if toasts[|toasts| - 1].remaining.None? then c else CancelTimer(c, toasts[|toasts| - 1].id)
  }

  function Pause(s: Store, now: int): Store {
    CancelTimed(s, s.toasts).(toasts := PausedAll(s.toasts, now))
  }

  predicate Waits(toast: Toast) {
    toast.remaining.Some? && toast.deadline.None?
  }

  function Resumed(toast: Toast, now: int): Toast {
    if Waits(toast) then toast.(deadline := Some(now + toast.remaining.value)) else toast
  }

  function ResumedAll(toasts: seq<Toast>, now: int): seq<Toast> {
    seq(|toasts|, i requires 0 <= i < |toasts| => Resumed(toasts[i], now))
  }

  function ScheduleWaiting(s: Store, toasts: seq<Toast>, now: int): Store {
    if toasts == [] then s
    else
      var c, last := ScheduleWaiting(s, toasts[..|toasts| - 1], now), toasts[|toasts| - 1];
      if Waits(last) then Schedule(c, last.id, now + last.remaining.value) else c
  }

  function Resume(s: Store, now: int): Store {
    ScheduleWaiting(s, s.toasts, now).(toasts := ResumedAll(s.toasts, now))
  }

  // A timer goes off.
  function Fire(s: Store, handle: nat, now: int): Store
    requires handle in s.clock
  {
    var gone := s.(clock := s.clock - {handle});
    match s.clock[handle]
    case Dismissal(id, _) => Dismiss(gone.(timers := s.timers - {id}), id)
    case Stall(id, _) =>
      var c := gone.(stallTimers := s.stallTimers - {id});
      var current := Find(s.toasts, id);
      if current.Some? && current.value.kind.Pending? then Resolve(c, id, Error, now) else c
  }

  // --- What always holds ---

  function Ids(toasts: seq<Toast>): set<nat> {
    set toast | toast in toasts :: toast.id
  }

  ghost predicate Apart(toasts: seq<Toast>) {
    forall i, j :: 0 <= i < j < |toasts| ==> toasts[i].id < toasts[j].id
  }

  // When each toast with a deadline is due.
  function Deadlines(toasts: seq<Toast>): map<nat, int> {
    map id | id in Ids(toasts) && Find(toasts, id).Some? && Find(toasts, id).value.deadline.Some?
      :: Find(toasts, id).value.deadline.value
  }

  function Unsettled(toasts: seq<Toast>): set<nat> {
    set toast | toast in toasts && toast.kind.Pending? :: toast.id
  }

  // The timers set are exactly those wanted, and the clock runs no other.
  ghost predicate Runs(s: Store, due: map<nat, int>, stalls: set<nat>) {
    && s.timers.Keys == due.Keys
    && (forall id :: id in s.timers ==> s.timers[id] in s.clock && s.clock[s.timers[id]] == Dismissal(id, due[id]))
    && s.stallTimers.Keys == stalls
    && (forall id :: id in s.stallTimers ==>
          s.stallTimers[id] in s.clock && s.clock[s.stallTimers[id]].Stall? && s.clock[s.stallTimers[id]].id == id)
    && (forall handle :: handle in s.clock ==> handle < s.nextHandle && Owned(s, handle))
  }

  predicate Owned(s: Store, handle: nat)
    requires handle in s.clock
  {
    var timer := s.clock[handle];
    if timer.Dismissal? then timer.id in s.timers && s.timers[timer.id] == handle
    else timer.id in s.stallTimers && s.stallTimers[timer.id] == handle
  }

  ghost predicate WellFormed(toasts: seq<Toast>, nextId: nat) {
    && |toasts| <= MAX_TOASTS
    && Apart(toasts)
    && (forall toast :: toast in toasts ==>
          && toast.id < nextId
          && (toast.remaining.Some? <==> toast.kind.Success? || toast.kind.Info?)
          && (toast.deadline.Some? ==> toast.remaining.Some?))
  }

  ghost predicate Inv(s: Store) {
    WellFormed(s.toasts, s.nextId) && Runs(s, Deadlines(s.toasts), Unsettled(s.toasts))
  }

  // --- Timers, one at a time ---

  lemma {:induction false} CancelTimerRuns(s: Store, id: nat, due: map<nat, int>, stalls: set<nat>)
    requires Runs(s, due, stalls)
    ensures Runs(CancelTimer(s, id), due - {id}, stalls)
  {
  }

  lemma {:induction false} CancelStallRuns(s: Store, id: nat, due: map<nat, int>, stalls: set<nat>)
    requires Runs(s, due, stalls)
    ensures Runs(CancelStall(s, id), due, stalls - {id})
  {
  }

  lemma {:induction false} ScheduleRuns(s: Store, id: nat, at: int, due: map<nat, int>, stalls: set<nat>)
    requires Runs(s, due, stalls)
    ensures Runs(Schedule(s, id, at), due[id := at], stalls)
  {
    CancelTimerRuns(s, id, due, stalls);
    hide CancelTimer;
    SetTimerRuns(CancelTimer(s, id), id, at, due - {id}, stalls);
    assert (due - {id})[id := at] == due[id := at];
  }

  lemma {:induction false} SetTimerRuns(s: Store, id: nat, at: int, due: map<nat, int>, stalls: set<nat>)
    requires Runs(s, due, stalls) && id !in due
    ensures Runs(s.(timers := s.timers[id := s.nextHandle], clock := s.clock[s.nextHandle := Dismissal(id, at)],
                    nextHandle := s.nextHandle + 1), due[id := at], stalls)
  {
    assert s.nextHandle !in s.clock;
  }

  lemma {:induction false} CancelBothRuns(s: Store, toasts: seq<Toast>, due: map<nat, int>, stalls: set<nat>)
    requires Runs(s, due, stalls)
    ensures Runs(CancelBoth(s, toasts), due - Ids(toasts), stalls - Ids(toasts))
    ensures CancelBoth(s, toasts).toasts == s.toasts && CancelBoth(s, toasts).nextId == s.nextId
  {
    hide Runs;
    if toasts == [] {
      assert due - Ids(toasts) == due && stalls - Ids(toasts) == stalls;
    } else {
      var rest, last := toasts[..|toasts| - 1], toasts[|toasts| - 1];
      CancelBothRuns(s, rest, due, stalls);
      IdsAdd(rest, last);
      assert toasts == rest + [last];
      CancelTimerRuns(CancelBoth(s, rest), last.id, due - Ids(rest), stalls - Ids(rest));
      CancelStallRuns(CancelTimer(CancelBoth(s, rest), last.id), last.id, due - Ids(rest) - {last.id},
          stalls - Ids(rest));
      assert due - Ids(rest) - {last.id} == due - Ids(toasts);
      assert stalls - Ids(rest) - {last.id} == stalls - Ids(toasts);
    }
  }

  lemma {:induction false} CancelBothKeepsToasts(s: Store, toasts: seq<Toast>)
    ensures CancelBoth(s, toasts).toasts == s.toasts && CancelBoth(s, toasts).nextId == s.nextId
  {
    if toasts != [] {
      CancelBothKeepsToasts(s, toasts[..|toasts| - 1]);
    }
  }

  lemma {:induction false} IdsAdd(toasts: seq<Toast>, last: Toast)
    ensures Ids(toasts + [last]) == Ids(toasts) + {last.id}
  {
    assert forall toast :: toast in toasts + [last] <==> toast in toasts || toast == last;
  }

  lemma {:induction false} CancelTimedRuns(s: Store, toasts: seq<Toast>, due: map<nat, int>, stalls: set<nat>)
    requires Runs(s, due, stalls)
    ensures Runs(CancelTimed(s, toasts), due - Timed(toasts), stalls)
    ensures CancelTimed(s, toasts).toasts == s.toasts && CancelTimed(s, toasts).nextId == s.nextId
  {
    hide Runs;
    if toasts == [] {
      assert due - Timed(toasts) == due;
    } else {
      var rest, last := toasts[..|toasts| - 1], toasts[|toasts| - 1];
      CancelTimedRuns(s, rest, due, stalls);
      assert forall toast :: toast in toasts <==> toast in rest || toast == last;
      assert Timed(toasts) == Timed(rest) + if last.remaining.Some? then {last.id} else {};
      CancelTimerRuns(CancelTimed(s, rest), last.id, due - Timed(rest), stalls);
      assert last.remaining.Some? ==> due - Timed(rest) - {last.id} == due - Timed(toasts);
      assert last.remaining.None? ==> due - Timed(rest) == due - Timed(toasts);
    }
  }

  function Timed(toasts: seq<Toast>): set<nat> {
    set toast | toast in toasts && toast.remaining.Some? :: toast.id
  }

  // When each waiting toast will be due.
  function WaitingDue(toasts: seq<Toast>, now: int): map<nat, int> {
    if toasts == [] then map[]
    else
      var rest, last := WaitingDue(toasts[..|toasts| - 1], now), toasts[|toasts| - 1];
      if Waits(last) then rest[last.id := now + last.remaining.value] else rest
  }

  lemma {:induction false} ScheduleWaitingRuns(s: Store, toasts: seq<Toast>, now: int, due: map<nat, int>,
          stalls: set<nat>)
    requires Runs(s, due, stalls)
    ensures Runs(ScheduleWaiting(s, toasts, now), due + WaitingDue(toasts, now), stalls)
    ensures ScheduleWaiting(s, toasts, now).toasts == s.toasts && ScheduleWaiting(s, toasts, now).nextId == s.nextId
  {
    hide Runs;
    if toasts == [] {
      assert due + map[] == due;
    } else {
      var rest, last := toasts[..|toasts| - 1], toasts[|toasts| - 1];
      ScheduleWaitingRuns(s, rest, now, due, stalls);
      if Waits(last) {
        var at := now + last.remaining.value;
        ScheduleRuns(ScheduleWaiting(s, rest, now), last.id, at, due + WaitingDue(rest, now), stalls);
        assert (due + WaitingDue(rest, now))[last.id := at] == due + WaitingDue(toasts, now);
      }
    }
  }

  // --- The toasts ---

  lemma {:induction false} FindAt(toasts: seq<Toast>, toast: Toast)
    requires Apart(toasts) && toast in toasts
    ensures Find(toasts, toast.id) == Some(toast)
  {
    var i :| 0 <= i < |toasts| && toasts[i] == toast;
    var found := Find(toasts, toast.id).value;
    var j :| 0 <= j < |toasts| && toasts[j] == found;
  }

  // What the deadlines are, toast by toast.
  lemma {:induction false} DeadlinesAre(toasts: seq<Toast>, due: map<nat, int>)
    requires Apart(toasts)
    requires forall toast :: toast in toasts && toast.deadline.Some? ==>
        toast.id in due && due[toast.id] == toast.deadline.value
    requires forall id :: id in due ==> exists toast :: toast in toasts && toast.id == id && toast.deadline.Some?
    ensures Deadlines(toasts) == due
  {
    hide Find;
    forall toast | toast in toasts
      ensures Find(toasts, toast.id) == Some(toast)
    {
      FindAt(toasts, toast);
    }
    assert forall id :: id in Deadlines(toasts) ==> id in due;
  }

  lemma {:induction false} DeadlineOf(toasts: seq<Toast>)
    requires Apart(toasts)
    ensures forall toast :: toast in toasts && toast.deadline.Some? ==>
      toast.id in Deadlines(toasts) && Deadlines(toasts)[toast.id] == toast.deadline.value
    ensures forall id :: id in Deadlines(toasts) ==>
        exists toast :: toast in toasts && toast.id == id && toast.deadline.Some?
  {
    hide Find;
    forall toast | toast in toasts
      ensures Find(toasts, toast.id) == Some(toast)
    {
      FindAt(toasts, toast);
    }
  }

  // Adding a later toast keeps them apart.
  lemma {:induction false} ApartAdds(toasts: seq<Toast>, last: Toast)
    ensures Apart(toasts + [last]) <==> Apart(toasts) && forall toast :: toast in toasts ==> toast.id < last.id
  {
    var all := toasts + [last];
    assert forall i :: 0 <= i < |toasts| ==> all[i] == toasts[i];
    assert all[|toasts|] == last;
  }

  lemma {:induction false} OthersStayApart(toasts: seq<Toast>, id: nat)
    requires Apart(toasts)
    ensures Apart(Others(toasts, id))
  {
    if toasts != [] {
      hide Apart;
      var rest, last := toasts[..|toasts| - 1], toasts[|toasts| - 1];
      assert toasts == rest + [last];
      ApartAdds(rest, last);
      OthersStayApart(rest, id);
      ApartAdds(Others(rest, id), last);
    }
  }

  // --- Every operation keeps the timers and the toasts in step ---

  lemma {:induction false} AddKeepsInv(s: Store, kind: Kind, now: int)
    requires Inv(s)
    ensures var t := Add(s, kind, now);
            && WellFormed(t.toasts, t.nextId) && t.nextId == s.nextId + 1
            && Runs(t, Deadlines(t.toasts), Unsettled(t.toasts) - {s.nextId})
            && Find(t.toasts, s.nextId) == Some(Added(s, kind, now))
            && t.toasts == s.toasts[Excess(s.toasts)..] + [Added(s, kind, now)]
  {
    hide Runs, Find, Deadlines, Unsettled, Ids, CancelBoth, CancelTimer, Apart;
    var over, toast := Excess(s.toasts), Added(s, kind, now);
    var gone, kept := s.toasts[..over], s.toasts[over..];
    var due, stalls := Deadlines(s.toasts), Unsettled(s.toasts);
    var bumped := s.(nextId := s.nextId + 1);
    RunsAlone(s, bumped, due, stalls);
    CancelBothRuns(bumped, gone, due, stalls);
    var c := CancelBoth(bumped, gone);
    var d := c.(toasts := kept + [toast]);
    RunsAlone(c, d, due - Ids(gone), stalls - Ids(gone));
    AddedToasts(s.toasts, over, toast);
    FindAt(kept + [toast], toast);
    if toast.deadline.Some? {
      ScheduleRuns(d, toast.id, toast.deadline.value, due - Ids(gone), stalls - Ids(gone));
      KeepsToasts(d, toast.id, toast.deadline.value);
    }
  }

  lemma {:induction false} KeepsToasts(s: Store, id: nat, due: int)
    ensures Schedule(s, id, due).toasts == s.toasts && Schedule(s, id, due).nextId == s.nextId
    ensures CancelTimer(s, id).toasts == s.toasts && CancelTimer(s, id).nextId == s.nextId
  {
  }

  // Only the timers and the clock matter to whether they run.
  lemma {:induction false} RunsAlone(s: Store, t: Store, due: map<nat, int>, stalls: set<nat>)
    requires Runs(s, due, stalls)
    requires t.timers == s.timers && t.stallTimers == s.stallTimers
    requires t.clock == s.clock && t.nextHandle == s.nextHandle
    ensures Runs(t, due, stalls)
  {
  }

  lemma {:induction false} CutApart(toasts: seq<Toast>, over: nat)
    requires Apart(toasts) && over <= |toasts|
    ensures Apart(toasts[over..])
    ensures forall other :: other in toasts <==> other in toasts[..over] || other in toasts[over..]
    ensures forall other :: other in toasts[over..] ==> other.id !in Ids(toasts[..over])
  {
    var gone, kept := toasts[..over], toasts[over..];
    assert toasts == gone + kept;
    forall i, j | 0 <= i < |gone| && 0 <= j < |kept|
      ensures gone[i].id < kept[j].id
    {
      assert toasts[i] == gone[i] && toasts[over + j] == kept[j];
    }
  }

  lemma {:induction false} AddedHas(toasts: seq<Toast>, over: nat, toast: Toast)
    requires Apart(toasts) && over <= |toasts| && forall other :: other in toasts ==> other.id < toast.id
    ensures Apart(toasts[over..] + [toast])
    ensures forall other :: other in toasts[over..] + [toast] <==>
        other == toast || (other in toasts && other.id !in Ids(toasts[..over]))
  {
    hide Apart;
    var gone, kept := toasts[..over], toasts[over..];
    CutApart(toasts, over);
    ApartAdds(kept, toast);
    forall other | other in gone
      ensures other.id in Ids(gone)
    {
    }
    hide Ids;
    assert forall other :: other in kept + [toast] <==> other in kept || other == toast;
  }

  lemma {:induction false} AddedToasts(toasts: seq<Toast>, over: nat, toast: Toast)
    requires Apart(toasts) && over <= |toasts| && forall other :: other in toasts ==> other.id < toast.id
    ensures Apart(toasts[over..] + [toast])
    ensures Deadlines(toasts[over..] + [toast])
         == if toast.deadline.Some? then (Deadlines(toasts) - Ids(toasts[..over]))[toast.id := toast.deadline.value]
            else Deadlines(toasts) - Ids(toasts[..over])
    ensures Unsettled(toasts[over..] + [toast]) - {toast.id} == Unsettled(toasts) - Ids(toasts[..over])
  {
    hide Deadlines, Unsettled, Ids, Find;
    var gone, all := toasts[..over], toasts[over..] + [toast];
    AddedHas(toasts, over, toast);
    UnsettledIs(toasts);
    UnsettledIs(all);
    AddedDeadlines(toasts, all, toast, Ids(gone));
  }

  lemma {:induction false} AddedDeadlines(toasts: seq<Toast>, all: seq<Toast>, toast: Toast, gone: set<nat>)
    requires Apart(toasts) && Apart(all)
    requires forall other :: other in all <==> other == toast || (other in toasts && other.id !in gone)
    requires forall other :: other in toasts ==> other.id < toast.id
    ensures Deadlines(all)
         == if toast.deadline.Some? then (Deadlines(toasts) - gone)[toast.id := toast.deadline.value]
              else Deadlines(toasts) - gone
  {
    hide Deadlines, Apart, Find;
    DeadlineOf(toasts);
    var due := Deadlines(toasts) - gone;
    DeadlinesAre(all, if toast.deadline.Some? then due[toast.id := toast.deadline.value] else due);
  }

  lemma {:induction false} AddPendingKeepsInv(s: Store, now: int)
    requires Inv(s)
    ensures Inv(AddPending(s, now))
  {
    hide Find, Deadlines, Add, Runs, Unsettled;
    AddKeepsInv(s, Pending, now);
    var c, id, toast := Add(s, Pending, now), s.nextId, Added(s, Pending, now);
    SetStallRuns(c, id, now + PENDING_STALL, Deadlines(c.toasts), Unsettled(c.toasts) - {id});
    PendingIsUnsettled(c.toasts, toast);
    assert Unsettled(c.toasts) - {id} + {id} == Unsettled(c.toasts);
  }

  lemma {:induction false} PendingIsUnsettled(toasts: seq<Toast>, toast: Toast)
    requires toast in toasts && toast.kind.Pending?
    ensures toast.id in Unsettled(toasts)
  {
  }

  lemma {:induction false} SetStallRuns(s: Store, id: nat, at: int, due: map<nat, int>, stalls: set<nat>)
    requires Runs(s, due, stalls) && id !in stalls
    ensures Runs(SetStall(s, id, at), due, stalls + {id})
    ensures SetStall(s, id, at).toasts == s.toasts && SetStall(s, id, at).nextId == s.nextId
  {
    assert s.nextHandle !in s.clock;
  }

  lemma {:induction false} OthersAdd(s: Store, kind: Kind, now: int)
    requires Inv(s) && !kind.Pending?
    ensures Inv(Add(s, kind, now))
  {
    hide Find, Deadlines, Add, Runs;
    AddKeepsInv(s, kind, now);
    var t := Add(s, kind, now);
    forall toast | toast in t.toasts && toast.kind.Pending?
      ensures toast.id != s.nextId
    {
      FindAt(t.toasts, toast);
    }
    assert Unsettled(t.toasts) - {s.nextId} == Unsettled(t.toasts);
  }

  lemma {:induction false} ReplacedToasts(toasts: seq<Toast>, toast: Toast)
    requires Apart(toasts) && !toast.kind.Pending?
    requires toast.id in Ids(toasts)
    ensures Apart(Replaced(toasts, toast)) && toast in Replaced(toasts, toast)
    ensures forall other :: other in Replaced(toasts, toast) <==>
        other == toast || (other in toasts && other.id != toast.id)
    ensures Deadlines(Replaced(toasts, toast))
         == if toast.deadline.Some? then (Deadlines(toasts) - {toast.id})[toast.id := toast.deadline.value]
            else Deadlines(toasts) - {toast.id}
    ensures Unsettled(Replaced(toasts, toast)) == Unsettled(toasts) - {toast.id}
  {
    hide Deadlines, Unsettled;
    ReplacedHas(toasts, toast);
    DeadlineOf(toasts);
    UnsettledIs(toasts);
    UnsettledIs(Replaced(toasts, toast));
    var due := Deadlines(toasts) - {toast.id};
    hide Replaced;
    DeadlinesAre(Replaced(toasts, toast), if toast.deadline.Some? then due[toast.id := toast.deadline.value] else due);
  }

  lemma {:induction false} UnsettledIs(toasts: seq<Toast>)
    ensures forall id :: id in Unsettled(toasts) <==>
        exists toast :: toast in toasts && toast.id == id && toast.kind.Pending?
  {
  }

  lemma {:induction false} ReplacedHas(toasts: seq<Toast>, toast: Toast)
    requires Apart(toasts) && toast.id in Ids(toasts)
    ensures Apart(Replaced(toasts, toast))
    ensures forall other :: other in Replaced(toasts, toast) <==>
        other == toast || (other in toasts && other.id != toast.id)
  {
    var all := Replaced(toasts, toast);
    forall i | 0 <= i < |toasts|
      ensures all[i] in all && (toasts[i].id != toast.id ==> all[i] == toasts[i])
    {
    }
    var k :| 0 <= k < |toasts| && toasts[k].id == toast.id;
    assert all[k] == toast;
  }

  // `s` is in step but that the toast has no stall timer, having been settled just now.
  lemma {:induction false} ResolveKeepsInv(s: Store, id: nat, kind: Kind, now: int)
    requires WellFormed(s.toasts, s.nextId) && Runs(s, Deadlines(s.toasts), Unsettled(s.toasts) - {id})
    requires kind.Success? || kind.Error?
    ensures Inv(Resolve(s, id, kind, now))
    ensures Find(s.toasts, id).None? ==> Resolve(s, id, kind, now) == s
  {
    hide Runs, Deadlines, Unsettled, Apart, Replaced;
    if Find(s.toasts, id).None? {
      NotUnsettled(s.toasts, id);
    } else {
      var remaining := if kind.Success? then Some(AUTO_DISMISS) else None;
      var toast := Toast(id, kind, remaining, After(remaining, now));
      HasId(s.toasts, id);
      hide Find;
      ReplacedToasts(s.toasts, toast);
      CancelTimerRuns(s, id, Deadlines(s.toasts), Unsettled(s.toasts) - {id});
      KeepsToasts(s, id, 0);
      var c := CancelTimer(s, id);
      var d := c.(toasts := Replaced(s.toasts, toast));
      RunsAlone(c, d, Deadlines(s.toasts) - {id}, Unsettled(s.toasts) - {id});
      if toast.deadline.Some? {
        ScheduleRuns(d, id, toast.deadline.value, Deadlines(s.toasts) - {id}, Unsettled(s.toasts) - {id});
        KeepsToasts(d, id, toast.deadline.value);
      }
      ReplacedLength(s.toasts, toast);
    }
  }

  lemma {:induction false} ReplacedLength(toasts: seq<Toast>, toast: Toast)
    ensures |Replaced(toasts, toast)| == |toasts|
  {
  }

  lemma {:induction false} HasId(toasts: seq<Toast>, id: nat)
    ensures Find(toasts, id).Some? <==> id in Ids(toasts)
  {
  }

  lemma {:induction false} NotUnsettled(toasts: seq<Toast>, id: nat)
    requires Find(toasts, id).None?
    ensures Unsettled(toasts) - {id} == Unsettled(toasts) && id !in Deadlines(toasts)
  {
  }

  // Settling through the handle a pending toast gave out.
  lemma {:induction false} SettleKeepsInv(s: Store, id: nat, kind: Kind, now: int)
    requires Inv(s) && (kind.Success? || kind.Error?)
    ensures Inv(Resolve(CancelStall(s, id), id, kind, now))
  {
    CancelStallRuns(s, id, Deadlines(s.toasts), Unsettled(s.toasts));
    hide Runs, WellFormed, Deadlines, Unsettled;
    ResolveKeepsInv(CancelStall(s, id), id, kind, now);
  }

  lemma {:induction false} OtherToasts(toasts: seq<Toast>, id: nat)
    requires Apart(toasts)
    ensures Apart(Others(toasts, id))
    ensures Deadlines(Others(toasts, id)) == Deadlines(toasts) - {id}
    ensures Unsettled(Others(toasts, id)) == Unsettled(toasts) - {id}
  {
    hide Deadlines, Others, Find;
    OthersStayApart(toasts, id);
    DeadlineOf(toasts);
    DeadlinesAre(Others(toasts, id), Deadlines(toasts) - {id});
  }

  // Removing a toast, whether or not its dismissal timer has just gone off.
  lemma {:induction false} DismissKeepsInv(s: Store, id: nat, due: map<nat, int>)
    requires WellFormed(s.toasts, s.nextId) && Runs(s, due, Unsettled(s.toasts))
    requires due == Deadlines(s.toasts) || (due == Deadlines(s.toasts) - {id} && id in Ids(s.toasts))
    ensures Inv(Dismiss(s, id))
  {
    hide Runs, Deadlines, Unsettled, Apart, Others;
    HasId(s.toasts, id);
    if Find(s.toasts, id).Some? {
      hide Find;
      OtherToasts(s.toasts, id);
        CancelTimerRuns(s, id, due, Unsettled(s.toasts));
      var c := CancelTimer(s, id);
      CancelStallRuns(c, id, due - {id}, Unsettled(s.toasts));
      var d := CancelStall(c, id);
      RunsAlone(d, d.(toasts := Others(s.toasts, id)), due - {id}, Unsettled(s.toasts) - {id});
      assert due - {id} == Deadlines(s.toasts) - {id};
    }
  }

  lemma {:induction false} ClearKeepsInv(s: Store)
    requires Inv(s)
    ensures Inv(Clear(s))
  {
    CancelBothRuns(s, s.toasts, Deadlines(s.toasts), Unsettled(s.toasts));
    hide Runs, CancelBoth;
    assert Deadlines(s.toasts) - Ids(s.toasts) == map[];
    assert Unsettled(s.toasts) - Ids(s.toasts) == {};
    assert Deadlines([]) == map[] && Unsettled([]) == {};
    RunsAlone(CancelBoth(s, s.toasts), Clear(s), map[], {});
  }

  lemma {:induction false} PausedToasts(toasts: seq<Toast>, now: int)
    requires Apart(toasts) && forall toast :: toast in toasts && toast.deadline.Some? ==> toast.remaining.Some?
    ensures var all := PausedAll(toasts, now);
            && Apart(all) && Deadlines(all) == map[] && Unsettled(all) == Unsettled(toasts)
            && (forall toast :: toast in all ==> exists i :: 0 <= i < |toasts| && toast == Paused(toasts[i], now))
  {
    var all := PausedAll(toasts, now);
    forall i | 0 <= i < |toasts|
      ensures toasts[i] in toasts && all[i] in all && all[i].deadline.None?
      ensures all[i].id == toasts[i].id && all[i].kind == toasts[i].kind
    {
    }
    DeadlinesAre(all, map[]);
    assert forall id :: id in Unsettled(all) <==> id in Unsettled(toasts) by {
      forall toast | toast in toasts && toast.kind.Pending?
        ensures toast.id in Unsettled(all)
      {
        var i :| 0 <= i < |toasts| && toasts[i] == toast;
        assert all[i] in all;
      }
    }
  }

  lemma {:induction false} StillWellFormed(toasts: seq<Toast>, all: seq<Toast>, nextId: nat)
    requires WellFormed(toasts, nextId) && |all| == |toasts|
    requires forall i :: 0 <= i < |all| ==>
      && all[i].id == toasts[i].id && all[i].kind == toasts[i].kind
      && (all[i].remaining.Some? <==> toasts[i].remaining.Some?)
      && (all[i].deadline.Some? ==> all[i].remaining.Some?)
    ensures WellFormed(all, nextId)
  {
    assert forall i :: 0 <= i < |toasts| ==> toasts[i] in toasts;
  }

  lemma {:induction false} PauseKeepsInv(s: Store, now: int)
    requires Inv(s)
    ensures Inv(Pause(s, now))
  {
    hide Runs, Unsettled, Find;
    CancelTimedRuns(s, s.toasts, Deadlines(s.toasts), Unsettled(s.toasts));
    assert Deadlines(s.toasts) - Timed(s.toasts) == map[] by {
      DeadlineOf(s.toasts);
    }
    hide Deadlines, CancelTimed;
    PausedToasts(s.toasts, now);
    StillWellFormed(s.toasts, Pause(s, now).toasts, s.nextId);
    var c := CancelTimed(s, s.toasts);
    RunsAlone(c, Pause(s, now), map[], Unsettled(s.toasts));
  }

  lemma {:induction false} WaitingDueIs(toasts: seq<Toast>, now: int)
    requires Apart(toasts)
    ensures forall toast :: toast in toasts && Waits(toast) ==>
      toast.id in WaitingDue(toasts, now) && WaitingDue(toasts, now)[toast.id] == now + toast.remaining.value
    ensures forall id :: id in WaitingDue(toasts, now) ==>
        exists toast :: toast in toasts && toast.id == id && Waits(toast)
  {
    if toasts != [] {
      var rest, last := toasts[..|toasts| - 1], toasts[|toasts| - 1];
      WaitingDueIs(rest, now);
      assert toasts == rest + [last];
      assert forall toast :: toast in rest ==> toast.id < last.id;
    }
  }

  lemma {:induction false} ResumedToasts(toasts: seq<Toast>, now: int)
    requires Apart(toasts)
    ensures var all := ResumedAll(toasts, now);
            && Apart(all) && Deadlines(all) == Deadlines(toasts) + WaitingDue(toasts, now)
            && Unsettled(all) == Unsettled(toasts)
            && (forall toast :: toast in all ==> exists i :: 0 <= i < |toasts| && toast == Resumed(toasts[i], now))
  {
    var all := ResumedAll(toasts, now);
    forall i | 0 <= i < |toasts|
      ensures toasts[i] in toasts && all[i] in all
      ensures all[i].id == toasts[i].id && all[i].kind == toasts[i].kind
    {
    }
    WaitingDueIs(toasts, now);
    DeadlineOf(toasts);
    var due := Deadlines(toasts) + WaitingDue(toasts, now);
    ResumedDue(toasts, now, all, due);
    assert forall id :: id in Unsettled(all) <==> id in Unsettled(toasts) by {
      forall toast | toast in toasts && toast.kind.Pending?
        ensures toast.id in Unsettled(all)
      {
        var i :| 0 <= i < |toasts| && toasts[i] == toast;
        assert all[i] in all;
      }
    }
  }

  lemma {:induction false} ResumedDue(toasts: seq<Toast>, now: int, all: seq<Toast>, due: map<nat, int>)
    requires Apart(toasts) && Apart(all) && due == Deadlines(toasts) + WaitingDue(toasts, now)
    requires |all| == |toasts| && forall i :: 0 <= i < |toasts| ==> all[i] == Resumed(toasts[i], now)
    ensures Deadlines(all) == due
  {
    hide Deadlines, WaitingDue;
    DeadlineOf(toasts);
    WaitingDueIs(toasts, now);
    forall toast | toast in all && toast.deadline.Some?
      ensures toast.id in due && due[toast.id] == toast.deadline.value
    {
      var i :| 0 <= i < |all| && all[i] == toast;
      assert toasts[i] in toasts;
      if !Waits(toasts[i]) && toast.id in WaitingDue(toasts, now) {
        var other :| other in toasts && other.id == toast.id && Waits(other);
        FindAt(toasts, other);
        FindAt(toasts, toasts[i]);
      }
    }
    forall id | id in due
      ensures exists toast :: toast in all && toast.id == id && toast.deadline.Some?
    {
      var other :| other in toasts && other.id == id && (other.deadline.Some? || Waits(other));
      var i :| 0 <= i < |toasts| && toasts[i] == other;
      assert all[i] in all;
    }
    DeadlinesAre(all, due);
  }

  lemma {:induction false} ResumeKeepsInv(s: Store, now: int)
    requires Inv(s)
    ensures Inv(Resume(s, now))
  {
    hide Runs, Unsettled, Find, Deadlines, WaitingDue, ScheduleWaiting;
    ScheduleWaitingRuns(s, s.toasts, now, Deadlines(s.toasts), Unsettled(s.toasts));
    ResumedToasts(s.toasts, now);
    assert forall i :: 0 <= i < |s.toasts| ==> s.toasts[i] in s.toasts;
    StillWellFormed(s.toasts, Resume(s, now).toasts, s.nextId);
    var c := ScheduleWaiting(s, s.toasts, now);
    RunsAlone(c, Resume(s, now), Deadlines(s.toasts) + WaitingDue(s.toasts, now), Unsettled(s.toasts));
  }

  lemma {:induction false} FireKeepsInv(s: Store, handle: nat, now: int)
    requires Inv(s) && handle in s.clock
    ensures Inv(Fire(s, handle, now))
  {
    var timer := s.clock[handle];
    var gone := s.(clock := s.clock - {handle});
    if timer.Dismissal? {
      var c := gone.(timers := s.timers - {timer.id});
      assert c == CancelTimer(s, timer.id);
      CancelTimerRuns(s, timer.id, Deadlines(s.toasts), Unsettled(s.toasts));
      hide Runs, Unsettled, Find;
      DismissKeepsInv(c, timer.id, Deadlines(s.toasts) - {timer.id});
    } else {
      var c := gone.(stallTimers := s.stallTimers - {timer.id});
      assert c == CancelStall(s, timer.id);
      CancelStallRuns(s, timer.id, Deadlines(s.toasts), Unsettled(s.toasts));
      assert exists toast :: toast in s.toasts && toast.id == timer.id && toast.kind.Pending?;
      var toast :| toast in s.toasts && toast.id == timer.id && toast.kind.Pending?;
      FindAt(s.toasts, toast);
      hide Runs, Unsettled, Find;
      ResolveKeepsInv(c, timer.id, Error, now);
    }
  }

  // --- Over every run ---

  datatype Step =
    | Say(kind: Kind)
    | SayPending
    | Settle(id: nat, kind: Kind)
    | Remove(id: nat)
    | ClearAll
    | PauseAll
    | ResumeAll
    | GoOff(handle: nat)
    | Pass(time: int)

  // The store in time, under the viewport. It is `paused` from a pause to the next resume;
  // `since` are the toasts begun after the last pause. A toast begins when it is said or
  // settled as a success: `inside` are those that last began inside a pause, `unpaused` is
  // how long each has stood outside pauses since, and `lost` how long its timer has run on
  // inside them.
  datatype World = World(
    store: Store,
    now: int,
    paused: bool,
    since: set<nat>,
    inside: set<nat>,
    unpaused: map<nat, int>,
    lost: map<nat, int>)

  const BEGINNING := World(EMPTY, 0, false, {}, {}, map[], map[])

  predicate Enabled(w: World, step: Step) {
    match step
    case Say(kind) => !kind.Pending?
    case Settle(_, kind) => kind.Success? || kind.Error?
    // Timers are on time: none goes off early, and no time passes over one that is due.
    case GoOff(handle) => handle in w.store.clock && w.store.clock[handle].due <= w.now
    case Pass(time) => time >= 0 && forall handle :: handle in w.store.clock ==>
        w.now + time <= w.store.clock[handle].due
    case _ => true
  }

  function Begun(w: World, id: nat): World {
    w.(since := w.since + {id}, inside := if w.paused then w.inside + {id} else w.inside - {id},
       unpaused := w.unpaused[id := 0], lost := w.lost[id := 0])
  }

  function Passed(w: World, time: int): World {
    w.(now := w.now + time,
       unpaused := map id | id in w.unpaused :: w.unpaused[id] + if w.paused then 0 else time,
       lost := map id | id in w.lost :: w.lost[id] + if w.paused && id in w.store.timers then time else 0)
  }

  function Apply(w: World, step: Step): World
    requires Enabled(w, step)
  {
    match step
    case Say(kind) => Begun(w, w.store.nextId).(store := Add(w.store, kind, w.now))
    case SayPending => w.(store := AddPending(w.store, w.now))
    case Settle(id, kind) =>
      (if kind.Success? then Begun(w, id) else w).(store := Resolve(CancelStall(w.store, id), id, kind, w.now))
    case Remove(id) => w.(store := Dismiss(w.store, id))
    case ClearAll => w.(store := Clear(w.store))
    case PauseAll => w.(store := Pause(w.store, w.now), paused := true, since := {})
    case ResumeAll => w.(store := Resume(w.store, w.now), paused := false)
    case GoOff(handle) => w.(store := Fire(w.store, handle, w.now))
    case Pass(time) => Passed(w, time)
  }

  ghost predicate Happens(from: World, steps: seq<Step>, to: World)
    decreases |steps|
  {
    if steps == [] then from == to
    else Enabled(from, steps[0]) && Happens(Apply(from, steps[0]), steps[1..], to)
  }

  function Left(toast: Toast, now: int): int
    requires toast.remaining.Some?
  {
    if toast.deadline.Some? then toast.deadline.value - now else toast.remaining.value
  }

  // A toast's time outside pauses, the time its timer ran on inside them, and the time it has
  // left make up its four seconds; only one that began inside a pause has lost any. While
  // the viewport is paused just the toasts begun since run.
  ghost predicate Accounted(w: World, toast: Toast) {
    toast.remaining.Some? ==>
      && toast.id in w.unpaused && toast.id in w.lost
      && w.unpaused[toast.id] + w.lost[toast.id] + Left(toast, w.now) == 4_000 && Left(toast, w.now) >= 0
      && w.lost[toast.id] >= 0 && (toast.id !in w.inside ==> w.lost[toast.id] == 0)
      && (toast.deadline.Some? <==> !w.paused || toast.id in w.since)
      && (w.paused && toast.id in w.since ==> toast.id in w.inside)
  }

  ghost predicate InTime(w: World) {
    Inv(w.store) && forall toast :: toast in w.store.toasts ==> Accounted(w, toast)
  }

  lemma {:induction false} StepKeepsInv(w: World, step: Step)
    requires Inv(w.store) && Enabled(w, step)
    ensures Inv(Apply(w, step).store)
  {
    hide Inv, Add, AddPending, Resolve, Dismiss, Clear, Pause, Resume, Fire, CancelStall;
    var s, now := w.store, w.now;
    match step {
      case Say(kind) => OthersAdd(s, kind, now);
      case SayPending => AddPendingKeepsInv(s, now);
      case Settle(id, kind) => SettleKeepsInv(s, id, kind, now);
      case Remove(id) => RemoveKeepsInv(s, id);
      case ClearAll => ClearKeepsInv(s);
      case PauseAll => PauseKeepsInv(s, now);
      case ResumeAll => ResumeKeepsInv(s, now);
      case GoOff(handle) => FireKeepsInv(s, handle, now);
      case Pass(_) =>
    }
  }

  lemma {:induction false} RemoveKeepsInv(s: Store, id: nat)
    requires Inv(s)
    ensures Inv(Dismiss(s, id))
  {
    hide Dismiss;
    DismissKeepsInv(s, id, Deadlines(s.toasts));
  }

  // The toasts after each step, from those before.
  lemma {:induction false} ToastsAfter(w: World, step: Step)
    requires Inv(w.store) && Enabled(w, step)
    ensures var before, after := w.store.toasts, Apply(w, step).store.toasts;
            forall toast :: toast in after ==>
              match step
              case Say(kind) => toast == Added(w.store, kind, w.now) || toast in before
              case SayPending => toast == Added(w.store, Pending, w.now) || toast in before
              case Settle(id, kind) => toast == Toast(id, kind, Remaining(kind), After(Remaining(kind), w.now))
                                       || (toast in before && toast.id != id)
              case PauseAll => exists i :: 0 <= i < |before| && toast == Paused(before[i], w.now)
              case ResumeAll => exists i :: 0 <= i < |before| && toast == Resumed(before[i], w.now)
              case GoOff(_) => toast.remaining.None? || toast in before
              case _ => toast in before
  {
    hide Runs, Deadlines, Unsettled, Find, Paused, Resumed, After, CancelTimed, ScheduleWaiting, Schedule, CancelTimer,
         Others;
    var s := w.store;
    match step {
      case Say(kind) =>
        AddKeepsInv(s, kind, w.now);
      case SayPending =>
        AddKeepsInv(s, Pending, w.now);
      case Settle(id, kind) => SettledToasts(CancelStall(s, id), id, kind, w.now);
      case Remove(id) => DismissedToasts(s, id);
      case ClearAll =>
      case PauseAll =>
      case ResumeAll =>
      case GoOff(handle) =>
        var timer := s.clock[handle];
        var gone := s.(clock := s.clock - {handle});
        if timer.Dismissal? {
          DismissedToasts(gone.(timers := s.timers - {timer.id}), timer.id);
        } else {
          SettledToasts(gone.(stallTimers := s.stallTimers - {timer.id}), timer.id, Error, w.now);
        }
      case Pass(_) =>
    }
  }

  lemma {:induction false} SettledToasts(s: Store, id: nat, kind: Kind, now: int)
    requires Apart(s.toasts) && (kind.Success? || kind.Error?)
    ensures forall toast :: toast in Resolve(s, id, kind, now).toasts ==>
      toast == Toast(id, kind, Remaining(kind), After(Remaining(kind), now)) || (toast in s.toasts && toast.id != id)
  {
    HasId(s.toasts, id);
    hide Apart, Find, Replaced;
    if Find(s.toasts, id).Some? {
      ReplacedHas(s.toasts, Toast(id, kind, Remaining(kind), After(Remaining(kind), now)));
    }
  }

  lemma {:induction false} DismissedToasts(s: Store, id: nat)
    ensures forall toast :: toast in Dismiss(s, id).toasts ==> toast in s.toasts
  {
  }

  // A running toast's timer is set for its deadline.
  lemma {:induction false} DeadlineIsTimed(s: Store, toast: Toast)
    requires Inv(s) && toast in s.toasts
    ensures toast.deadline.Some? <==> toast.id in s.timers
    ensures toast.deadline.Some? ==>
      s.timers[toast.id] in s.clock && s.clock[s.timers[toast.id]] == Dismissal(toast.id, toast.deadline.value)
  {
    FindAt(s.toasts, toast);
    DeadlineOf(s.toasts);
    hide Find;
  }

  lemma {:induction false} StepKeepsTime(w: World, step: Step)
    requires InTime(w) && Enabled(w, step)
    ensures InTime(Apply(w, step))
  {
    hide Inv;
    StepKeepsInv(w, step);
    ToastsAfter(w, step);
    var after := Apply(w, step);
    hide Apply, Enabled;
    forall toast | toast in after.store.toasts
      ensures Accounted(after, toast)
    {
      ToastKeepsTime(w, step, toast);
    }
  }

  // Nothing changes for a toast whose own time is not touched.
  lemma {:induction false} SameTime(w: World, after: World, toast: Toast)
    requires Accounted(w, toast) && after.now == w.now && after.paused == w.paused
    requires toast.id in w.unpaused ==> toast.id in after.unpaused && after.unpaused[toast.id] == w.unpaused[toast.id]
    requires toast.id in w.lost ==> toast.id in after.lost && after.lost[toast.id] == w.lost[toast.id]
    requires toast.id in after.since <==> toast.id in w.since
    requires toast.id in after.inside <==> toast.id in w.inside
    ensures Accounted(after, toast)
  {
  }

  lemma {:induction false} PassKeepsTime(w: World, time: int, toast: Toast)
    requires InTime(w) && Enabled(w, Pass(time)) && toast in w.store.toasts
    ensures Accounted(Apply(w, Pass(time)), toast)
  {
    hide Runs, Deadlines, Unsettled, Inv;
    DeadlineIsTimed(w.store, toast);
  }

  lemma {:induction false} PauseKeepsTime(w: World, toast: Toast)
    requires InTime(w) && toast in w.store.toasts
    ensures Accounted(Apply(w, PauseAll), Paused(toast, w.now))
    ensures Accounted(Apply(w, ResumeAll), Resumed(toast, w.now))
  {
    hide Inv, Pause, Resume;
  }

  lemma {:induction false} NewKeepsTime(w: World, after: World, toast: Toast, kind: Kind)
    requires toast.remaining == Remaining(kind) && toast.deadline == After(Remaining(kind), w.now)
    requires toast.remaining.Some? ==> after == Begun(w, toast.id).(store := after.store)
    ensures toast.remaining.Some? ==> Accounted(after, toast)
  {
  }

  lemma {:induction false} ToastKeepsTime(w: World, step: Step, toast: Toast)
    requires InTime(w) && Enabled(w, step) && toast in Apply(w, step).store.toasts
    ensures Accounted(Apply(w, step), toast)
  {
    hide Add, AddPending, Resolve, Dismiss, Clear, Fire, CancelStall, Runs, Deadlines, Unsettled, Accounted, Paused,
        Resumed,
         After, Apart;
    var before, after := w.store.toasts, Apply(w, step);
    ToastsAfter(w, step);
    if step.PauseAll? || step.ResumeAll? {
      var i :| 0 <= i < |before| && toast == if step.PauseAll? then Paused(before[i], w.now)
           else Resumed(before[i], w.now);
      assert before[i] in before;
      PauseKeepsTime(w, before[i]);
    } else if step.Pass? {
      PassKeepsTime(w, step.time, toast);
    } else if toast in before && !(step.Settle? && toast.id == step.id) {
      assert toast.id < w.store.nextId;
      SameTime(w, after, toast);
    } else if step.GoOff? {
      Unaccounted(after, toast);
    } else {
      NewKeepsTime(w, after, toast, if step.SayPending? then Pending else step.kind);
      if toast.remaining.None? {
        Unaccounted(after, toast);
      }
    }
  }

  lemma {:induction false} Unaccounted(w: World, toast: Toast)
    requires toast.remaining.None?
    ensures Accounted(w, toast)
  {
  }

  // What can happen: anything is said, but a pending toast by its own operation; what is settled
  // is a success or an error; timers go off when they are due, and no time passes beyond that.
  lemma {:induction false} WhatCanHappen(w: World)
    ensures forall kind :: Enabled(w, Say(kind)) <==> kind != Pending
    ensures forall id, kind :: Enabled(w, Settle(id, kind)) <==> kind == Success || kind == Error
    ensures forall handle :: Enabled(w, GoOff(handle)) <==>
              handle in w.store.clock && w.store.clock[handle].due <= w.now
    ensures forall time :: Enabled(w, Pass(time)) <==>
              time >= 0 && forall handle :: handle in w.store.clock ==> w.now + time <= w.store.clock[handle].due
    ensures Enabled(w, SayPending) && Enabled(w, ClearAll) && Enabled(w, PauseAll) && Enabled(w, ResumeAll)
    ensures forall id :: Enabled(w, Remove(id))
  {
  }

  // What each operation leaves of the toasts.
  lemma {:induction false} WhatEachDoes(w: World, step: Step)
    requires Inv(w.store) && Enabled(w, step)
    ensures var before, after := w.store, Apply(w, step).store;
            match step
            case Say(kind) =>
              && |after.toasts| > 0
              && after.toasts[|after.toasts| - 1].id == before.nextId && after.toasts[|after.toasts| - 1].kind == kind
            case SayPending =>
              |after.toasts| > 0 && after.toasts[|after.toasts| - 1] == Toast(before.nextId, Pending, None, None)
            case Settle(id, kind) =>
              && |after.toasts| == |before.toasts|
              && (forall i :: 0 <= i < |before.toasts| ==>
                    && after.toasts[i].id == before.toasts[i].id
                    && (before.toasts[i].id != id ==> after.toasts[i] == before.toasts[i])
                    && (before.toasts[i].id == id ==> after.toasts[i].kind == kind))
            case Remove(id) => forall toast :: toast in after.toasts <==> toast in before.toasts && toast.id != id
            case ClearAll => after.toasts == []
            case PauseAll => forall toast :: toast in after.toasts ==> toast.deadline == None
            case ResumeAll =>
              forall toast :: toast in after.toasts && toast.remaining != None ==> toast.deadline != None
            case GoOff(handle) => handle !in after.clock
            case Pass(time) => after == before && Apply(w, step).now == w.now + time
  {
    hide Inv, Add, AddPending, Resolve, Dismiss, Pause, Resume, Fire, CancelStall, CancelBoth, Runs;
    var s, now := w.store, w.now;
    FewAndFit(s);
    match step {
      case Say(kind) => WhoMakesRoom(s, kind, now);
      case SayPending => APendingToastIsTimed(s, now);
      case Settle(id, kind) => SettledInPlace(s, id, kind, now);
      case Remove(id) => RemovedAlone(s, id);
      case PauseAll => AllArePaused(s, now);
      case ResumeAll => NoneWaits(s, now);
      case GoOff(handle) => GoneOff(s, handle, now);
      case _ =>
    }
  }

  lemma {:induction false} FewAndFit(s: Store)
    requires Inv(s)
    ensures |s.toasts| <= 5
    ensures forall toast :: toast in s.toasts && toast.deadline.Some? ==> toast.remaining.Some?
  {
    hide Runs, Apart;
  }

  lemma {:induction false} SettledInPlace(s: Store, id: nat, kind: Kind, now: int)
    ensures var toasts := Resolve(CancelStall(s, id), id, kind, now).toasts;
            && |toasts| == |s.toasts|
            && forall i :: 0 <= i < |toasts| ==>
                 && toasts[i].id == s.toasts[i].id
                 && (s.toasts[i].id != id ==> toasts[i] == s.toasts[i])
                 && (s.toasts[i].id == id ==> toasts[i].kind == kind)
  {
    if Find(s.toasts, id).None? {
      assert forall i :: 0 <= i < |s.toasts| ==> s.toasts[i] in s.toasts;
    }
    hide Find;
  }

  lemma {:induction false} RemovedAlone(s: Store, id: nat)
    ensures forall toast :: toast in Dismiss(s, id).toasts <==> toast in s.toasts && toast.id != id
  {
    hide Filter;
  }

  lemma {:induction false} AllArePaused(s: Store, now: int)
    requires forall toast :: toast in s.toasts && toast.deadline.Some? ==> toast.remaining.Some?
    ensures forall toast :: toast in Pause(s, now).toasts ==> toast.deadline == None
  {
    hide CancelTimed;
    forall i | 0 <= i < |s.toasts|
      ensures PausedAll(s.toasts, now)[i].deadline == None
    {
      assert s.toasts[i] in s.toasts;
    }
  }

  lemma {:induction false} NoneWaits(s: Store, now: int)
    ensures forall toast :: toast in Resume(s, now).toasts && toast.remaining != None ==> toast.deadline != None
  {
    hide ScheduleWaiting;
  }

  lemma {:induction false} GoneOff(s: Store, handle: nat, now: int)
    requires handle in s.clock
    ensures handle !in Fire(s, handle, now).clock
  {
    hide Find, Replaced, Filter;
  }

  lemma {:induction false} RunKeepsTime(from: World, steps: seq<Step>, to: World)
    requires InTime(from) && Happens(from, steps, to)
    ensures InTime(to)
    decreases |steps|
  {
    hide InTime, Apply, Enabled;
    if steps != [] {
      StepKeepsTime(from, steps[0]);
      RunKeepsTime(Apply(from, steps[0]), steps[1..], to);
    }
  }

  // In every run whose timers are on time: at most five toasts, timers for exactly the
  // toasts that want them and no others, and every toast that goes away by itself has four
  // seconds in all. Inside a pause exactly those run that began after the viewport last
  // paused; outside all do.
  lemma {:induction false} TimersStayInStep(steps: seq<Step>, w: World)
    requires Happens(BEGINNING, steps, w)
    ensures |w.store.toasts| <= 5
    ensures forall id :: id in w.store.timers <==>
        exists toast :: toast in w.store.toasts && toast.id == id && toast.deadline.Some?
    ensures forall id :: id in w.store.stallTimers <==>
        exists toast :: toast in w.store.toasts && toast.id == id && toast.kind.Pending?
    ensures forall handle :: handle in w.store.clock ==> Owned(w.store, handle)
    ensures forall toast :: toast in w.store.toasts ==>
        && Accounted(w, toast)
        && (toast.id in w.store.timers <==> toast.remaining.Some? && (!w.paused || toast.id in w.since))
  {
    EmptyIsInTime();
    hide Apply, Enabled, BEGINNING;
    RunKeepsTime(BEGINNING, steps, w);
    DeadlineOf(w.store.toasts);
    UnsettledIs(w.store.toasts);
    hide Deadlines, Unsettled, Find, Happens;
    forall toast | toast in w.store.toasts
      ensures toast.id in w.store.timers <==> toast.remaining.Some? && (!w.paused || toast.id in w.since)
    {
      DeadlineIsTimed(w.store, toast);
    }
  }

  lemma {:induction false} EmptyIsInTime()
    ensures InTime(BEGINNING)
  {
    assert Deadlines([]) == map[] && Unsettled([]) == {};
  }

  // So a toast's timer takes it away after four seconds, no sooner and no later; and after
  // four seconds outside pauses if and only if it has run for no time inside one, as every
  // toast has that did not begin inside a pause.
  lemma {:induction false} GoesAfterFourSeconds(w: World, handle: nat)
    requires InTime(w) && Enabled(w, GoOff(handle)) && w.store.clock[handle].Dismissal?
    ensures var id := w.store.clock[handle].id;
            && id in w.unpaused && id in w.lost && w.unpaused[id] + w.lost[id] == 4_000
            && (w.unpaused[id] == 4_000 <==> w.lost[id] == 0)
            && (id !in w.inside ==> w.unpaused[id] == 4_000)
            && Find(Apply(w, GoOff(handle)).store.toasts, id).None?
  {
    hide CancelTimer, CancelStall, Find;
    var toast := TimedToast(w.store, handle);
    assert Accounted(w, toast);
    hide Inv;
    HasId(w.store.toasts, toast.id);
    HasId(Others(w.store.toasts, toast.id), toast.id);
  }

  // A new toast comes last, with four seconds if it is a success or a word of information, and
  // the first goes only when there are five already.
  lemma {:induction false} WhoMakesRoom(s: Store, kind: Kind, now: int)
    requires |s.toasts| <= 5
    ensures var t := Add(s, kind, now);
            var kept := if |s.toasts| < 5 then s.toasts else s.toasts[1..];
            var brief := kind == Success || kind == Info;
            && t.toasts == kept + [Toast(s.nextId, kind, if brief then Some(4_000) else None,
                                         if brief then Some(now + 4_000) else None)]
            && t.nextId == s.nextId + 1
  {
    CancelBothKeepsToasts(s.(nextId := s.nextId + 1), s.toasts[..Excess(s.toasts)]);
    hide CancelBoth, CancelTimer;
  }

  // A pending toast has thirty seconds: its timer is set as it is said, last of the toasts.
  lemma {:induction false} APendingToastIsTimed(s: Store, now: int)
    ensures var t := AddPending(s, now);
            && |t.toasts| > 0 && t.toasts[|t.toasts| - 1] == Toast(s.nextId, Pending, None, None)
            && s.nextId in t.stallTimers && t.stallTimers[s.nextId] in t.clock
            && t.clock[t.stallTimers[s.nextId]] == Stall(s.nextId, now + 30_000)
  {
    hide CancelBoth;
  }

  // When that timer goes off the toast is still pending, and becomes an error that stays.
  lemma {:induction false} AStalledToastFails(s: Store, handle: nat, now: int)
    requires Inv(s) && handle in s.clock && s.clock[handle].Stall?
    ensures var t, id := Fire(s, handle, now), s.clock[handle].id;
            && Find(s.toasts, id).Some? && Find(s.toasts, id).value.kind == Pending
            && |t.toasts| == |s.toasts|
            && (forall i :: 0 <= i < |t.toasts| ==>
                  t.toasts[i] == if s.toasts[i].id == id then Toast(id, Error, None, None) else s.toasts[i])
            && id !in t.stallTimers && handle !in t.clock
  {
    hide Deadlines, Apart;
    var id := s.clock[handle].id;
    assert Owned(s, handle) && id in Unsettled(s.toasts);
    var toast :| toast in s.toasts && toast.kind.Pending? && toast.id == id;
    hide Inv;
    FindAt(s.toasts, toast);
  }

  // A toast said while the pointer rests on the others is not held: its four seconds go by
  // inside the pause, and it with them.
  lemma {:induction false} AToastGoesInsideAPause() returns (steps: seq<Step>, w: World)
    ensures BEGINNING == World(Store([], map[], map[], 1, map[], 0), 0, false, {}, {}, map[], map[])
    ensures steps == [PauseAll, Say(Success), Pass(4_000), GoOff(0)] && Happens(BEGINNING, steps, w)
    ensures w.paused && w.store.toasts == [] && w.unpaused == map[1 := 0] && w.lost == map[1 := 4_000]
  {
    hide Pause, Add, Fire, Happens;
    PausedNothing();
    FirstSaid();
    FirstGone();
    var a := Apply(BEGINNING, PauseAll);
    var b := Apply(a, Say(Success));
    var c := Apply(b, Pass(AUTO_DISMISS));
    w := Apply(c, GoOff(0));
    steps := [PauseAll, Say(Success), Pass(AUTO_DISMISS), GoOff(0)];
    FourSteps(BEGINNING, PauseAll, Say(Success), Pass(AUTO_DISMISS), GoOff(0));
  }

  const FIRST := Store([Toast(1, Success, Some(AUTO_DISMISS), Some(AUTO_DISMISS))], map[1 := 0], map[], 2,
                       map[0 := Dismissal(1, AUTO_DISMISS)], 1)

  lemma {:induction false} PausedNothing()
    ensures Pause(EMPTY, 0) == EMPTY
  {
  }

  lemma {:induction false} FirstSaid()
    ensures Add(EMPTY, Success, 0) == FIRST
  {
  }

  lemma {:induction false} FirstGone()
    ensures Fire(FIRST, 0, AUTO_DISMISS).toasts == []
  {
    assert Find(FIRST.toasts, 1) == Some(FIRST.toasts[0]);
  }

  lemma {:induction false} FourSteps(w: World, a: Step, b: Step, c: Step, d: Step)
    requires Enabled(w, a) && Enabled(Apply(w, a), b) && Enabled(Apply(Apply(w, a), b), c)
    requires Enabled(Apply(Apply(Apply(w, a), b), c), d)
    ensures Happens(w, [a, b, c, d], Apply(Apply(Apply(Apply(w, a), b), c), d))
  {
    hide Enabled, Apply;
    var end := Apply(Apply(Apply(Apply(w, a), b), c), d);
    assert [a, b, c, d][1..] == [b, c, d] && [b, c, d][1..] == [c, d] && [c, d][1..] == [d] && [d][1..] == [];
    assert Happens(end, [], end);
    assert Happens(Apply(Apply(Apply(w, a), b), c), [d], end);
    assert Happens(Apply(Apply(w, a), b), [c, d], end);
    assert Happens(Apply(w, a), [b, c, d], end);
  }

  // The toast that a dismissal timer is for.
  lemma {:induction false} TimedToast(s: Store, handle: nat) returns (toast: Toast)
    requires Inv(s) && handle in s.clock && s.clock[handle].Dismissal?
    ensures toast in s.toasts && toast.id == s.clock[handle].id
    ensures toast.remaining.Some? && toast.deadline == Some(s.clock[handle].due)
  {
    hide Find, Deadlines;
    assert Owned(s, handle);
    DeadlineOf(s.toasts);
    toast :| toast in s.toasts && toast.id == s.clock[handle].id && toast.deadline.Some?;
  }
}
