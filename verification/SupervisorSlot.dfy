/** What a supervisor remembers of one child, the lock sections that change it, and the
    capped restart backoff. Both supervisors are built from these sections. */
module SupervisorSlot {
  import opened Text

  datatype Live = Live(pid: nat, startedAt: nat)

  datatype Slot = Slot(proc: Option<Live>, lastError: Option<string>, attempts: nat, disabledReason: Option<string>)

  const EmptySlot: Slot := Slot(None, None, 0, None)

  const MaxAttempts: nat := 10
  const HealthyUptime: nat := 30

  // ---------------------------------------------------------------- lock sections

  /** stop_if_running: whatever is recorded is taken out, and the reason is kept. */
  function Stopped(s: Slot, reason: string): Slot {
    s.(proc := None, disabledReason := Some(reason))
  }

  /** The registration of a spawned child; only a manual reconcile clears the counter. */
  function Registered(s: Slot, live: Live, resetCrash: bool): Slot {
    Slot(Some(live), None, if resetCrash then 0 else s.attempts, None)
  }

  /** First watchdog section: the recorded process is taken, whichever it is. */
  function Taken(s: Slot): Slot {
    s.(proc := None)
  }

  /** Second watchdog section when the child is still wanted. */
  function Counted(s: Slot, healthy: bool, error: string): Slot {
    s.(attempts := (if healthy then 0 else s.attempts) + 1, lastError := Some(error))
  }

  /** Second watchdog section when the child is no longer wanted. */
  function Unwanted(s: Slot, reason: string): Slot {
    s.(attempts := 0, lastError := None, disabledReason := Some(reason))
  }

  /** The same sections as the supervisor runs them on its shared state. */
  class Supervisor {
    var proc: Option<Live>
    var lastError: Option<string>
    var attempts: nat
    var disabledReason: Option<string>

    function View(): Slot
      reads this
    {
      Slot(proc, lastError, attempts, disabledReason)
    }

    constructor ()
      ensures View() == EmptySlot
    {
      proc, lastError, attempts, disabledReason := None, None, 0, None;
    }

    method TakeForStop(reason: string) returns (live: Option<Live>)
      modifies this
      ensures live == old(proc) && View() == Stopped(old(View()), reason)
    {
      live := proc;
      proc := None;
      disabledReason := Some(reason);
    }

    method Register(live: Live, resetCrash: bool)
      modifies this
      ensures View() == Registered(old(View()), live, resetCrash)
    {
      proc := Some(live);
      if resetCrash {
        lastError, attempts := None, 0;
      } else {
        lastError := None;
      }
      disabledReason := None;
    }

    /** Returns the start time of the process it took, or the current time if there was none. */
    method WatchdogTake(now: nat) returns (startedAt: nat)
      modifies this
      ensures View() == Taken(old(View()))
      ensures startedAt == if old(proc).Some? then old(proc).value.startedAt else now
    {
      startedAt := if proc.Some? then proc.value.startedAt else now;
      proc := None;
    }

    /** Counts an exit and says after how many seconds to restart; None is giving up. */
    method WatchdogCount(startedAt: nat, now: nat, error: string) returns (backoff: Option<nat>)
      requires startedAt <= now
      modifies this
      ensures View() == Counted(old(View()), now - startedAt >= 30, error)
      ensures backoff == if attempts > 10 then None else Some(RestartBackoff(attempts))
    {
      if now - startedAt >= HealthyUptime {
        attempts := 0;
      }
      attempts := attempts + 1;
      lastError := Some(error);
      if attempts > MaxAttempts {
        return None;
      }
      return Some(RestartBackoff(attempts));
    }

    method WatchdogUnwanted(reason: string)
      modifies this
      ensures View() == Unwanted(old(View()), reason)
    {
      lastError, attempts := None, 0;
      disabledReason := Some(reason);
    }

    /** One reconcile with no other section in between; `child` is what the spawn gave. The old
        child, if any, is handed out to be killed whatever becomes of the new one; the crash
        counter survives every reconcile that is not a successful manual one. */
    method EnsureRunning(unwanted: Option<string>, child: Option<Live>, resetCrash: bool)
      returns (stopped: Option<Live>)
      modifies this
      ensures stopped == old(proc)
      ensures proc == if unwanted.Some? then None else child
      ensures attempts == if unwanted.None? && child.Some? && resetCrash then 0 else old(attempts)
      ensures proc.Some? ==> disabledReason.None? && lastError.None?
      ensures unwanted.Some? ==> disabledReason == unwanted && lastError == old(lastError)
    {
      if unwanted.Some? {
        stopped := TakeForStop(unwanted.value);
        return;
      }
      stopped := None;
      if proc.Some? {
        stopped := TakeForStop("config-driven restart");
      }
      if child.Some? {
        Register(child.value, resetCrash);
      }
    }

    /** A whole watchdog run with no other section in between, up to its backoff. An exit that was
        asked for, or of a child no longer wanted, never leads to a restart; any other one does,
        after one to 32 seconds, exactly as long as the counter has not passed ten. */
    method WatchdogExit(administrative: bool, unwanted: Option<string>, now: nat, error: string)
      returns (backoff: Option<nat>)
      requires proc.Some? ==> proc.value.startedAt <= now
      modifies this
      ensures proc == None
      ensures administrative ==> backoff.None? && View() == old(View()).(proc := None)
      ensures !administrative && unwanted.Some? ==> backoff.None? && attempts == 0 && disabledReason == unwanted
      ensures !administrative && unwanted.None? ==>
                var healthy := old(proc).Some? && now - old(proc).value.startedAt >= 30;
                && attempts == (if healthy then 1 else old(attempts) + 1)
                && (backoff.Some? <==> attempts <= 10) && (backoff.Some? ==> 1 <= backoff.value <= 32)
                && lastError == Some(error) && disabledReason == old(disabledReason)
    {
      var startedAt := WatchdogTake(now);
      if administrative {
        return None;
      }
      if unwanted.Some? {
        WatchdogUnwanted(unwanted.value);
        return None;
      }
      backoff := WatchdogCount(startedAt, now, error);
      BackoffRange(attempts);
    }
  }

  // ---------------------------------------------------------------- backoff

  function Shift1(n: nat): nat {
    if n == 0 then 1 else 2 * Shift1(n - 1)
  }

  function Min(a: nat, b: nat): nat {
    if a < b then a else b
  }

  function RestartBackoff(attempts: nat): nat {
    var capped := Min(attempts, 6);
    Min(Shift1(if capped == 0 then 0 else capped - 1), 60)
  }

  /** The wait before the restart that follows the given count; None is giving up. */
  function Scheduled(attempts: nat): Option<nat> {
    if attempts > MaxAttempts then None else Some(RestartBackoff(attempts))
  }

  /** Doubles from one second and stays at 32: the cap of 60 is never what decides. */
  lemma BackoffDoublesThenStays(n: nat)
    ensures RestartBackoff(0) == RestartBackoff(1) == 1
    ensures 1 <= n < 6 ==> RestartBackoff(n + 1) == 2 * RestartBackoff(n)
    ensures n >= 6 ==> RestartBackoff(n) == 32
  {
    assert Shift1(1) == 2 && Shift1(2) == 4 && Shift1(3) == 8 && Shift1(4) == 16 && Shift1(5) == 32;
  }

  lemma BackoffRange(n: nat)
    ensures 1 <= RestartBackoff(n) <= 32
  {
    assert Shift1(1) == 2 && Shift1(2) == 4 && Shift1(3) == 8 && Shift1(4) == 16 && Shift1(5) == 32;
    var e := if Min(n, 6) == 0 then 0 else Min(n, 6) - 1;
    assert e == 0 || e == 1 || e == 2 || e == 3 || e == 4 || e == 5;
  }

  // ---------------------------------------------------------------- counting histories

  /** The counter after a history of counted exits, each marked healthy or not. */
  function AttemptsAfter(exits: seq<bool>): nat {
    if exits == [] then 0
    else (if exits[|exits| - 1] then 0 else AttemptsAfter(exits[..|exits| - 1])) + 1
  }

  /** The counter is the number of exits from the last healthy one, inclusive, onward. */
  lemma {:induction false} CounterCountsFromLastHealthy(exits: seq<bool>, h: nat)
    requires h < |exits| && exits[h] && forall i :: h < i < |exits| ==> !exits[i]
    ensures AttemptsAfter(exits) == |exits| - h
  {
    if h < |exits| - 1 {
      CounterCountsFromLastHealthy(exits[..|exits| - 1], h);
    }
  }

  lemma {:induction false} CounterCountsAllUnhealthy(exits: seq<bool>)
    requires forall i :: 0 <= i < |exits| ==> !exits[i]
    ensures AttemptsAfter(exits) == |exits|
  {
    if exits != [] {
      CounterCountsAllUnhealthy(exits[..|exits| - 1]);
    }
  }

  /** Seconds of backoff scheduled over a history. */
  function TotalBackoff(exits: seq<bool>): nat {
    if exits == [] then 0
    else
      var wait := Scheduled(AttemptsAfter(exits));
      TotalBackoff(exits[..|exits| - 1]) + if wait.Some? then wait.value else 0
  }

  function BackoffSum(n: nat): nat {
    if n == 0 then 0 else BackoffSum(n - 1) + RestartBackoff(n)
  }

  lemma BackoffSumTo10()
    ensures BackoffSum(10) == 191
  {
    forall n: nat ensures n >= 6 ==> RestartBackoff(n) == 32 {
      BackoffDoublesThenStays(n);
    }
    BackoffDoublesThenStays(1);
    BackoffDoublesThenStays(2);
    BackoffDoublesThenStays(3);
    BackoffDoublesThenStays(4);
    BackoffDoublesThenStays(5);
    assert BackoffSum(5) == 31 by {
      assert BackoffSum(1) == 1 && BackoffSum(2) == 3 && BackoffSum(3) == 7 && BackoffSum(4) == 15;
    }
    assert BackoffSum(6) == 63 && BackoffSum(7) == 95 && BackoffSum(8) == 127 && BackoffSum(9) == 159;
  }

  lemma {:induction false} BackoffSumGrows(n: nat, m: nat)
    requires n <= m
    ensures BackoffSum(n) <= BackoffSum(m)
  {
    if n < m {
      BackoffSumGrows(n, m - 1);
    }
  }

  /** A crash loop without a healthy run waits at most 191 seconds in all, and exactly that
      once it has used up its ten restarts. */
  lemma {:induction false} CrashLoopWaits191Seconds(exits: seq<bool>)
    requires forall i :: 0 <= i < |exits| ==> !exits[i]
    ensures TotalBackoff(exits) == BackoffSum(Min(|exits|, 10))
    ensures TotalBackoff(exits) <= 191
    ensures |exits| >= 10 ==> TotalBackoff(exits) == 191
  {
    if exits != [] {
      CrashLoopWaits191Seconds(exits[..|exits| - 1]);
    }
    CounterCountsAllUnhealthy(exits);
    BackoffSumTo10();
    BackoffSumGrows(Min(|exits|, 10), 10);
  }
}
