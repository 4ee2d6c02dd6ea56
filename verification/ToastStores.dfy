// The toast store as an object: each method makes of its fields what the specification
// says (web/src/state/toast.ts).
module ToastStores {
  import T = Toasts
  import opened Basics

  class ToastStore {
    var toasts: seq<T.Toast>
    var timers: map<nat, nat>
    var stallTimers: map<nat, nat>
    var nextId: nat
    // The clock it was given: the callbacks it still has to make.
    var clock: map<nat, T.Timer>
    var nextHandle: nat

    ghost function View(): T.Store
      reads this
    {
      T.Store(toasts, timers, stallTimers, nextId, clock, nextHandle)
    }

    ghost predicate Valid()
      reads this
    {
      T.Inv(View())
    }

    constructor ()
      ensures Valid() && View() == T.EMPTY
    {
      toasts, timers, stallTimers, nextId, clock, nextHandle := [], map[], map[], 1, map[], 0;
      new;
      T.EmptyIsInTime();
    }

    method SetTimeout(timer: T.Timer) returns (handle: nat)
      modifies this`clock, this`nextHandle
      ensures handle == old(nextHandle) && nextHandle == handle + 1 && clock == old(clock)[handle := timer]
    {
      handle := nextHandle;
      clock := clock[handle := timer];
      nextHandle := nextHandle + 1;
    }

    method CancelTimer(id: nat)
      modifies this`timers, this`clock
      ensures View() == T.CancelTimer(old(View()), id)
    {
      if id !in timers {
        return;
      }
      clock := clock - {timers[id]};
      timers := timers - {id};
    }

    method CancelStall(id: nat)
      modifies this`stallTimers, this`clock
      ensures View() == T.CancelStall(old(View()), id)
    {
      if id !in stallTimers {
        return;
      }
      clock := clock - {stallTimers[id]};
      stallTimers := stallTimers - {id};
    }

    method Schedule(id: nat, due: int)
      modifies this`timers, this`clock, this`nextHandle
      ensures View() == T.Schedule(old(View()), id, due)
    {
      CancelTimer(id);
      var handle := SetTimeout(T.Dismissal(id, due));
      timers := timers[id := handle];
    }

    method CancelBoth(gone: seq<T.Toast>)
      modifies this`timers, this`stallTimers, this`clock
      ensures View() == T.CancelBoth(old(View()), gone)
    {
      for i := 0 to |gone|
        invariant View() == T.CancelBoth(old(View()), gone[..i])
      {
        CancelTimer(gone[i].id);
        CancelStall(gone[i].id);
        assert gone[..i + 1][..i] == gone[..i];
      }
      assert gone[..|gone|] == gone;
    }

    method Add(kind: T.Kind, now: int) returns (id: nat)
      requires Valid()
      modifies this
      ensures id == old(nextId) && View() == T.Add(old(View()), kind, now)
      ensures !kind.Pending? ==> Valid()
    {
      hide T.Inv, T.CancelBoth, T.Schedule;
      ghost var was := View();
      id := nextId;
      nextId := nextId + 1;
      var remaining := if kind.Success? || kind.Info? then Some(T.AUTO_DISMISS) else None;
      var toast := T.Toast(id, kind, remaining, if remaining.Some? then Some(now + remaining.value) else None);
      var next := toasts + [toast];
      next := if |next| > T.MAX_TOASTS then next[|next| - T.MAX_TOASTS..] else next;
      var over := T.Excess(toasts);
      assert next == toasts[over..] + [toast];
      T.CancelBothKeepsToasts(View(), toasts[..over]);
      CancelBoth(toasts[..over]);
      toasts := next;
      if remaining.Some? {
        Schedule(id, now + remaining.value);
      }
      if !kind.Pending? {
        T.OthersAdd(was, kind, now);
      }
    }

    method Pending(now: int) returns (id: nat)
      requires Valid()
      modifies this
      ensures Valid() && id == old(nextId) && View() == T.AddPending(old(View()), now)
    {
      hide T.Inv, T.Add;
      T.AddPendingKeepsInv(View(), now);
      id := Add(T.Pending, now);
      var handle := SetTimeout(T.Stall(id, now + T.PENDING_STALL));
      stallTimers := stallTimers[id := handle];
    }

    method Resolve(id: nat, kind: T.Kind, now: int)
      requires kind.Success? || kind.Error?
      modifies this
      ensures View() == T.Resolve(old(View()), id, kind, now)
    {
      if T.Find(toasts, id).None? {
        return;
      }
      CancelTimer(id);
      var remaining := if kind.Success? then Some(T.AUTO_DISMISS) else None;
      var toast := T.Toast(id, kind, remaining, if remaining.Some? then Some(now + remaining.value) else None);
      toasts := T.Replaced(toasts, toast);
      if remaining.Some? {
        Schedule(id, now + remaining.value);
      }
    }

    // Through the handle that a pending toast gave out.
    method Settle(id: nat, kind: T.Kind, now: int)
      requires Valid() && (kind.Success? || kind.Error?)
      modifies this
      ensures Valid() && View() == T.Resolve(T.CancelStall(old(View()), id), id, kind, now)
    {
      T.SettleKeepsInv(View(), id, kind, now);
      CancelStall(id);
      Resolve(id, kind, now);
    }

    method Dismiss(id: nat)
      modifies this
      ensures View() == T.Dismiss(old(View()), id)
    {
      if T.Find(toasts, id).None? {
        return;
      }
      CancelTimer(id);
      CancelStall(id);
      toasts := T.Others(toasts, id);
    }

    method Remove(id: nat)
      requires Valid()
      modifies this
      ensures Valid() && View() == T.Dismiss(old(View()), id)
    {
      T.RemoveKeepsInv(View(), id);
      Dismiss(id);
    }

    method Clear()
      requires Valid()
      modifies this
      ensures Valid() && View() == T.Clear(old(View()))
    {
      T.ClearKeepsInv(View());
      T.CancelBothKeepsToasts(View(), toasts);
      CancelBoth(toasts);
      toasts := [];
    }

    method Pause(now: int)
      requires Valid()
      modifies this
      ensures Valid() && View() == T.Pause(old(View()), now)
    {
      hide T.Inv, T.CancelTimer;
      T.PauseKeepsInv(View(), now);
      ghost var was := View();
      for i := 0 to |toasts|
        invariant toasts == was.toasts && View() == T.CancelTimed(was, toasts[..i])
      {
        if toasts[i].remaining.Some? {
          CancelTimer(toasts[i].id);
        }
        assert toasts[..i + 1][..i] == toasts[..i];
      }
      assert toasts[..|toasts|] == toasts;
      toasts := T.PausedAll(toasts, now);
    }

    method Resume(now: int)
      requires Valid()
      modifies this
      ensures Valid() && View() == T.Resume(old(View()), now)
    {
      hide T.Inv, T.Schedule;
      T.ResumeKeepsInv(View(), now);
      ghost var was := View();
      for i := 0 to |toasts|
        invariant toasts == was.toasts && View() == T.ScheduleWaiting(was, toasts[..i], now)
      {
        if toasts[i].remaining.Some? && toasts[i].deadline.None? {
          Schedule(toasts[i].id, now + toasts[i].remaining.value);
        }
        assert toasts[..i + 1][..i] == toasts[..i];
      }
      assert toasts[..|toasts|] == toasts;
      toasts := T.ResumedAll(toasts, now);
    }

    // The clock makes one of its callbacks.
    method GoOff(handle: nat, now: int)
      requires Valid() && handle in clock
      modifies this
      ensures Valid() && View() == T.Fire(old(View()), handle, now)
    {
      hide T.Inv, T.CancelTimer, T.CancelStall;
      T.FireKeepsInv(View(), handle, now);
      var timer := clock[handle];
      clock := clock - {handle};
      if timer.Dismissal? {
        timers := timers - {timer.id};
        Dismiss(timer.id);
      } else {
        stallTimers := stallTimers - {timer.id};
        var current := T.Find(toasts, timer.id);
        if current.None? || !current.value.kind.Pending? {
          return;
        }
        Resolve(timer.id, T.Error, now);
      }
    }
  }
}
