/** The mdnsvpn supervisor as a transition system over its lock sections, with the child
    processes it spawned: who owns a live child, and what the crash counter means. */
module MdnsSupervisor {
  import opened Text
  import opened SupervisorSlot

  /** A watchdog task: waiting for its child, past its first section, past its look at the
      shutdown flag, asleep before a restart, or finished. A child gets its watchdog when it is
      registered. */
  datatype Watch = Unwatched | Waiting | Exited | Unexpected | Asleep | Finished

  datatype Child = Child(alive: bool, stopping: bool, watch: Watch)

  /** The reconcile in progress, if any; reconciles are serialised. */
  datatype Phase =
    | Idle
    | Flagging(pid: nat, reset: bool, respawn: bool)
    | Killing(pid: nat, reset: bool, respawn: bool)
    | Spawning(reset: bool)
    | Spawned(pid: nat, reset: bool)

  /** `exits` is the history of counted exits since the counter was last cleared. */
  datatype State = State(slot: Slot, children: map<nat, Child>, phase: Phase, nextPid: nat, exits: seq<bool>)

  const Initial: State := State(EmptySlot, map[], Idle, 1, [])

  datatype Event =
    | Reconcile(reset: bool, wanted: bool)
    | Flag
    | KillDone
    | Spawn(ok: bool)
    | Register(now: nat)
    | Die(pid: nat)
    | WatchTake(pid: nat)
    | WatchLook(pid: nat)
    | WatchCount(pid: nat, healthy: bool, wanted: bool)
    | Wake(pid: nat, wanted: bool)

  function WithChild(s: State, pid: nat, c: Child): State {
    s.(children := s.children[pid := c])
  }

  predicate Watches(s: State, pid: nat, w: Watch) {
    pid in s.children && s.children[pid].watch == w
  }

  predicate Enabled(s: State, e: Event) {
    match e
    case Reconcile(_, _) => s.phase.Idle?
    case Flag => s.phase.Flagging? && s.phase.pid in s.children
    case KillDone => s.phase.Killing? && s.phase.pid in s.children
    case Spawn(_) => s.phase.Spawning?
    case Register(_) => s.phase.Spawned? && s.phase.pid in s.children
    case Die(pid) => pid in s.children && s.children[pid].alive
    case WatchTake(pid) => Watches(s, pid, Waiting) && !s.children[pid].alive
    case WatchLook(pid) => Watches(s, pid, Exited)
    case WatchCount(pid, _, _) => Watches(s, pid, Unexpected)
    case Wake(pid, _) => Watches(s, pid, Asleep) && s.phase.Idle?
  }

  /** A reconcile up to its stop section: the recorded child, if any, is taken; its shutdown flag
      is raised only after the lock is released. A wanted child that is not running goes straight
      to the spawn. */
  function BeginReconcile(s: State, reset: bool, wanted: bool): State {
    var slot := Stopped(s.slot, "reconcile");
    if s.slot.proc.Some? && s.slot.proc.value.pid in s.children then
      s.(slot := slot, phase := Flagging(s.slot.proc.value.pid, reset, wanted))
    else if wanted then s.(slot := s.slot.(proc := None), phase := Spawning(reset))
    else s.(slot := slot)
  }

  function Step(s: State, e: Event): State
    requires Enabled(s, e)
  {
    match e
    case Reconcile(reset, wanted) => BeginReconcile(s, reset, wanted)
    case Flag =>
      WithChild(s, s.phase.pid, s.children[s.phase.pid].(stopping := true))
      .(phase := Killing(s.phase.pid, s.phase.reset, s.phase.respawn))
    case KillDone =>
      var c := s.children[s.phase.pid];
      WithChild(s, s.phase.pid, c.(alive := false))
      .(phase := if s.phase.respawn then Spawning(s.phase.reset) else Idle)
    case Spawn(ok) =>
      if !ok then s.(phase := Idle)
      else WithChild(s, s.nextPid, Child(true, false, Unwatched))
           .(phase := Spawned(s.nextPid, s.phase.reset), nextPid := s.nextPid + 1)
    case Register(now) =>
      var pid := s.phase.pid;
      WithChild(s, pid, s.children[pid].(watch := Waiting))
      .(slot := Registered(s.slot, Live(pid, now), s.phase.reset),
        exits := if s.phase.reset then [] else s.exits, phase := Idle)
    case Die(pid) => WithChild(s, pid, s.children[pid].(alive := false))
    case WatchTake(pid) =>
      WithChild(s, pid, s.children[pid].(watch := Exited)).(slot := Taken(s.slot))
    case WatchLook(pid) =>
      var c := s.children[pid];
      WithChild(s, pid, c.(watch := if c.stopping then Finished else Unexpected))
    case WatchCount(pid, healthy, wanted) =>
      var c := s.children[pid];
      if !wanted then WithChild(s, pid, c.(watch := Finished)).(slot := Unwanted(s.slot, "disabled"), exits := [])
      else
        var slot := Counted(s.slot, healthy, "exited");
        WithChild(s, pid, c.(watch := if Scheduled(slot.attempts).Some? then Asleep else Finished))
        .(slot := slot, exits := s.exits + [healthy])
    case Wake(pid, wanted) =>
      BeginReconcile(WithChild(s, pid, s.children[pid].(watch := Finished)), false, wanted)
  }

  /** A run: every event is enabled where it happens. */
  ghost predicate Runs(s: State, es: seq<Event>)
    decreases |es|
  {
    es == [] || (Enabled(s, es[0]) && Runs(Step(s, es[0]), es[1..]))
  }

  function After(s: State, es: seq<Event>): State
    requires Runs(s, es)
    decreases |es|
  {
    if es == [] then s else After(Step(s, es[0]), es[1..])
  }

  // ---------------------------------------------------------------- ownership

  /** The scheduling hypothesis: nothing is registered while the watchdog of a dead child has
      yet to run its first section. */
  ghost predicate Prompt(s: State, e: Event) {
    e.Register? ==> forall pid :: Watches(s, pid, Waiting) ==> s.children[pid].alive
  }

  ghost predicate RunsPromptly(s: State, es: seq<Event>)
    decreases |es|
  {
    es == [] || (Enabled(s, es[0]) && Prompt(s, es[0]) && RunsPromptly(Step(s, es[0]), es[1..]))
  }

  lemma {:induction false} PromptRunsAreRuns(s: State, es: seq<Event>)
    requires RunsPromptly(s, es)
    ensures Runs(s, es)
    decreases |es|
  {
    if es != [] {
      PromptRunsAreRuns(Step(s, es[0]), es[1..]);
    }
  }

  predicate Recorded(s: State, pid: nat) {
    s.slot.proc.Some? && s.slot.proc.value.pid == pid
  }

  /** The reconcile in progress is stopping this child. */
  predicate BeingStopped(s: State, pid: nat) {
    (s.phase.Flagging? || s.phase.Killing?) && s.phase.pid == pid
  }

  /** A live child is the recorded one, the one being stopped, or the one not yet registered. */
  predicate Owned(s: State) {
    forall pid :: pid in s.children && s.children[pid].alive ==>
      Recorded(s, pid) || BeingStopped(s, pid) || (s.phase.Spawned? && s.phase.pid == pid)
  }

  /** What keeps ownership going. */
  ghost predicate Inv(s: State) {
    && Owned(s)
    && (forall pid :: pid in s.children ==> pid < s.nextPid)
    && (s.slot.proc.Some? ==>
          && s.phase.Idle?
          && Watches(s, s.slot.proc.value.pid, Waiting)
          && (forall pid :: Watches(s, pid, Waiting) ==> Recorded(s, pid)))
    && (s.phase.Flagging? || s.phase.Killing? ==> s.phase.pid in s.children)
    && (s.phase.Spawned? ==> Watches(s, s.phase.pid, Unwatched))
  }

  lemma BeginKeepsInv(s: State, reset: bool, wanted: bool)
    requires Inv(s) && s.phase.Idle?
    ensures Inv(BeginReconcile(s, reset, wanted))
  {
    var t := BeginReconcile(s, reset, wanted);
    assert forall pid :: Watches(t, pid, Waiting) ==> Watches(s, pid, Waiting);
  }

  lemma RegisterKeepsInv(s: State, now: nat)
    requires Inv(s) && Enabled(s, Register(now)) && Prompt(s, Register(now))
    ensures Inv(Step(s, Register(now)))
  {
    var t := Step(s, Register(now));
    assert forall pid :: Watches(t, pid, Waiting) ==> pid == s.phase.pid || Watches(s, pid, Waiting);
  }

  lemma WatchKeepsInv(s: State, e: Event)
    requires Inv(s) && Enabled(s, e) && (e.WatchTake? || e.WatchLook? || e.WatchCount?)
    ensures Inv(Step(s, e))
  {
    var t := Step(s, e);
    assert forall q :: Watches(t, q, Waiting) ==> Watches(s, q, Waiting);
  }

  lemma StepKeepsInv(s: State, e: Event)
    requires Inv(s) && Enabled(s, e) && Prompt(s, e)
    ensures Inv(Step(s, e))
  {
    var t := Step(s, e);
    match e
    case Reconcile(reset, wanted) => BeginKeepsInv(s, reset, wanted);
    case Register(now) => RegisterKeepsInv(s, now);
    case Wake(pid, wanted) =>
      var u := WithChild(s, pid, s.children[pid].(watch := Finished));
      assert forall q :: Watches(u, q, Waiting) ==> Watches(s, q, Waiting);
      BeginKeepsInv(u, false, wanted);
    case Flag => assert forall q :: Watches(t, q, Waiting) ==> Watches(s, q, Waiting);
    case KillDone => assert forall q :: Watches(t, q, Waiting) ==> Watches(s, q, Waiting);
    case Spawn(_) => assert forall q :: Watches(t, q, Waiting) ==> Watches(s, q, Waiting);
    case Die(_) => assert forall q :: Watches(t, q, Waiting) ==> Watches(s, q, Waiting);
    case WatchTake(_) => WatchKeepsInv(s, e);
    case WatchLook(_) => WatchKeepsInv(s, e);
    case WatchCount(_, _, _) => WatchKeepsInv(s, e);
  }

  lemma {:induction false} RunsKeepInv(s: State, es: seq<Event>)
    requires Inv(s) && RunsPromptly(s, es)
    ensures Runs(s, es) && Inv(After(s, es))
    decreases |es|
  {
    PromptRunsAreRuns(s, es);
    if es != [] {
      StepKeepsInv(s, es[0]);
      RunsKeepInv(Step(s, es[0]), es[1..]);
    }
  }

  /** No orphan: after any prompt run, a live child outside a stop or spawn in progress is the
      one recorded, so at most one child is alive. */
  lemma NoOrphan(es: seq<Event>)
    requires RunsPromptly(Initial, es)
    ensures Runs(Initial, es)
    ensures var t := After(Initial, es);
            t.phase.Idle? ==>
              forall p, q :: p in t.children && q in t.children && t.children[p].alive && t.children[q].alive ==>
                p == q && Recorded(t, p)
  {
    RunsKeepInv(Initial, es);
  }

  // ---------------------------------------------------------------- exactly when ownership is lost

  /** What every run keeps, prompt or not: fresh process ids, a record only outside reconciles, and
      a shutdown flag that is down until the child's stop section is over. */
  predicate Book(s: State) {
    && (forall pid :: pid in s.children ==> pid < s.nextPid)
    && (s.slot.proc.Some? ==>
          s.phase.Idle? && s.slot.proc.value.pid in s.children && !s.children[s.slot.proc.value.pid].stopping)
    && (s.phase.Flagging? || s.phase.Spawned? ==> s.phase.pid in s.children && !s.children[s.phase.pid].stopping)
    && (s.phase.Killing? ==> s.phase.pid in s.children)
  }

  lemma StepKeepsBook(s: State, e: Event)
    requires Book(s) && Enabled(s, e)
    ensures Book(Step(s, e))
  {
  }

  lemma {:induction false} RunsKeepBook(s: State, es: seq<Event>)
    requires Book(s) && Runs(s, es)
    ensures Book(After(s, es))
    decreases |es|
  {
    if es != [] {
      StepKeepsBook(s, es[0]);
      RunsKeepBook(Step(s, es[0]), es[1..]);
    }
  }

  /** A watchdog's first section that takes the record of another, live child. */
  predicate TakesAnother(s: State, e: Event) {
    && e.WatchTake? && s.slot.proc.Some? && s.slot.proc.value.pid != e.pid
    && s.slot.proc.value.pid in s.children && s.children[s.slot.proc.value.pid].alive
  }

  lemma TakeIsForeignIff(s: State, pid: nat)
    requires Book(s) && Owned(s) && Enabled(s, WatchTake(pid))
    ensures Owned(Step(s, WatchTake(pid))) <==> !TakesAnother(s, WatchTake(pid))
  {
    var t := Step(s, WatchTake(pid));
    if TakesAnother(s, WatchTake(pid)) {
      var q := s.slot.proc.value.pid;
      assert q in t.children && t.children[q].alive && !Recorded(t, q);
    }
  }

  /** Any enabled event keeps every live child owned, unless it is a watchdog's first section that
      takes another, live child's record: the take is not guarded by the pid. */
  lemma OwnedStepIff(s: State, e: Event)
    requires Book(s) && Owned(s) && Enabled(s, e)
    ensures Owned(Step(s, e)) <==> !TakesAnother(s, e)
  {
    if e.WatchTake? {
      TakeIsForeignIff(s, e.pid);
    }
  }

  /** Every live child is owned at every point of the run. */
  ghost predicate OwnedThroughout(s: State, es: seq<Event>)
    requires Runs(s, es)
    decreases |es|
  {
    Owned(s) && (es == [] || OwnedThroughout(Step(s, es[0]), es[1..]))
  }

  ghost predicate NoForeignTake(s: State, es: seq<Event>)
    requires Runs(s, es)
    decreases |es|
  {
    es == [] || (!TakesAnother(s, es[0]) && NoForeignTake(Step(s, es[0]), es[1..]))
  }

  lemma {:induction false} OwnedIff(s: State, es: seq<Event>)
    requires Book(s) && Owned(s) && Runs(s, es)
    ensures OwnedThroughout(s, es) <==> NoForeignTake(s, es)
    decreases |es|
  {
    if es != [] {
      StepKeepsBook(s, es[0]);
      OwnedStepIff(s, es[0]);
      if Owned(Step(s, es[0])) {
        OwnedIff(Step(s, es[0]), es[1..]);
      }
    }
  }

  lemma {:induction false} OwnedAtTheEnd(s: State, es: seq<Event>)
    requires Runs(s, es) && OwnedThroughout(s, es)
    ensures Owned(After(s, es))
    decreases |es|
  {
    if es != [] {
      OwnedAtTheEnd(Step(s, es[0]), es[1..]);
    }
  }

  /** No orphan, exactly: over every run, however its watchdogs are scheduled, live children are
      owned throughout if and only if no watchdog takes another, live child's record. */
  lemma NoOrphanIff(es: seq<Event>)
    requires Runs(Initial, es)
    ensures OwnedThroughout(Initial, es) <==> NoForeignTake(Initial, es)
  {
    OwnedIff(Initial, es);
  }

  /** And then at most one child is alive outside a stop or spawn in progress: the recorded one. */
  lemma NoForeignTakeNoOrphan(es: seq<Event>)
    requires Runs(Initial, es) && NoForeignTake(Initial, es)
    ensures var t := After(Initial, es);
            t.phase.Idle? ==>
              forall p, q :: p in t.children && q in t.children && t.children[p].alive && t.children[q].alive ==>
                p == q && Recorded(t, p)
  {
    NoOrphanIff(es);
    OwnedAtTheEnd(Initial, es);
  }

  // ---------------------------------------------------------------- what a reconcile brings about

  /** The child is recorded, alive and not being stopped, and its watchdog waits for it. */
  predicate Up(s: State, pid: nat, since: nat) {
    && s.slot.proc == Some(Live(pid, since))
    && pid in s.children && s.children[pid] == Child(true, false, Waiting)
  }

  function StopTrace(s: State): seq<Event> {
    if s.slot.proc.Some? && s.slot.proc.value.pid in s.children then [Flag, KillDone] else []
  }

  /** A reconcile that wants the child, with no other section in between: the recorded child, if any,
      is killed, a new one is up under a new pid, and the crash counter is cleared exactly by a
      manual reconcile. */
  lemma ReconcileBringsUp(s: State, reset: bool, now: nat) returns (t: State)
    requires Book(s) && s.phase.Idle?
    ensures Leads(s, [Reconcile(reset, true)] + (StopTrace(s) + [Spawn(true), Register(now)]), t)
    ensures t.phase.Idle? && Up(t, s.nextPid, now)
    ensures t.slot.attempts == if reset then 0 else s.slot.attempts
    ensures s.slot.proc.Some? ==> s.slot.proc.value.pid in t.children && !t.children[s.slot.proc.value.pid].alive
  {
    var begun := Step(s, Reconcile(reset, true));
    StepKeepsBook(s, Reconcile(reset, true));
    var stopped := StopRecorded(s, reset, true);
    t := Step(Step(stopped, Spawn(true)), Register(now));
    RunOf1(Step(stopped, Spawn(true)), Register(now));
    RunCons(stopped, Spawn(true), [Register(now)], t);
    assert [Spawn(true)] + [Register(now)] == [Spawn(true), Register(now)];
    Compose(begun, StopTrace(s), stopped, [Spawn(true), Register(now)], t);
    RunCons(s, Reconcile(reset, true), StopTrace(s) + [Spawn(true), Register(now)], t);
  }

  /** One that does not want it leaves nothing recorded and the old child dead. */
  lemma ReconcileTakesDown(s: State, reset: bool) returns (t: State)
    requires Book(s) && s.phase.Idle?
    ensures Leads(s, [Reconcile(reset, false)] + StopTrace(s), t)
    ensures t.phase.Idle? && t.slot.proc.None? && t.slot.disabledReason.Some?
    ensures s.slot.proc.Some? ==> s.slot.proc.value.pid in t.children && !t.children[s.slot.proc.value.pid].alive
  {
    t := StopRecorded(s, reset, false);
    RunCons(s, Reconcile(reset, false), StopTrace(s), t);
  }

  /** The stop of whatever a reconcile found recorded. */
  lemma StopRecorded(s: State, reset: bool, wanted: bool) returns (t: State)
    requires Book(s) && s.phase.Idle?
    ensures Leads(Step(s, Reconcile(reset, wanted)), StopTrace(s), t)
    ensures t.phase == if wanted then Spawning(reset) else Idle
    ensures t.slot.proc.None? && t.slot.attempts == s.slot.attempts && t.nextPid == s.nextPid
    ensures !wanted ==> t.slot.disabledReason.Some?
    ensures forall pid :: pid in t.children <==> pid in s.children
    ensures s.slot.proc.Some? ==> s.slot.proc.value.pid in t.children && !t.children[s.slot.proc.value.pid].alive
  {
    var begun := Step(s, Reconcile(reset, wanted));
    if s.slot.proc.Some? {
      t := Step(Step(begun, Flag), KillDone);
      RunOf1(Step(begun, Flag), KillDone);
      RunCons(begun, Flag, [KillDone], t);
      assert [Flag] + [KillDone] == [Flag, KillDone];
    } else {
      t := begun;
    }
  }

  // ---------------------------------------------------------------- exactly when a stop is missed

  /** Somewhere in the run a stop section had taken this child. */
  ghost predicate StopTook(s: State, es: seq<Event>, pid: nat)
    requires Runs(s, es)
    decreases |es|
  {
    (s.phase.Flagging? && s.phase.pid == pid) || (es != [] && StopTook(Step(s, es[0]), es[1..], pid))
  }

  /** Taken by a stop section: the flag is about to go up, or it is up. */
  predicate TakenForStop(s: State, pid: nat) {
    pid in s.children && ((s.phase.Flagging? && s.phase.pid == pid) || s.children[pid].stopping)
  }

  lemma StepKeepsTaken(s: State, e: Event, pid: nat)
    requires Book(s) && Enabled(s, e) && TakenForStop(s, pid)
    ensures TakenForStop(Step(s, e), pid)
  {
  }

  lemma {:induction false} TakenStays(s: State, es: seq<Event>, pid: nat)
    requires Book(s) && Runs(s, es) && (TakenForStop(s, pid) || StopTook(s, es, pid))
    ensures TakenForStop(After(s, es), pid)
    decreases |es|
  {
    if es != [] {
      StepKeepsBook(s, es[0]);
      if TakenForStop(s, pid) {
        StepKeepsTaken(s, es[0], pid);
      }
      TakenStays(Step(s, es[0]), es[1..], pid);
    }
  }

  /** Over every run, the watchdog of a child that a stop section has taken mistakes its exit for a
      crash exactly when it looks before that very stop has raised the flag. */
  lemma StopIsMissedIff(es: seq<Event>, pid: nat)
    requires Runs(Initial, es) && StopTook(Initial, es, pid) && Enabled(After(Initial, es), WatchLook(pid))
    ensures var t := After(Initial, es);
            Step(t, WatchLook(pid)).children[pid].watch == Unexpected
            <==> t.phase.Flagging? && t.phase.pid == pid
  {
    RunsKeepBook(Initial, es);
    TakenStays(Initial, es, pid);
  }

  /** The trace that needs the hypothesis: a manual restart registers the new child before the
      old child's watchdog has run, the late section takes the new child's record, and the
      next reconcile spawns a second one beside it. */
  function OrphanTrace(): seq<Event> {
    StartTrace() + (ReplaceTrace() + TakeTrace())
  }

  lemma LateWatchdogOrphans() returns (t: State)
    ensures Leads(Initial, OrphanTrace(), t)
    ensures t.phase.Idle? && Recorded(t, 3)
    ensures 2 in t.children && t.children[2].alive && 3 in t.children && t.children[3].alive
  {
    var s := ReplaceFirst();
    t := TakeOfLate(s);
    StartFirst();
    Compose(FirstChild(), ReplaceTrace(), s, TakeTrace(), t);
    Compose(Initial, StartTrace(), FirstChild(), ReplaceTrace() + TakeTrace(), t);
  }

  function StartTrace(): seq<Event> {
    [Reconcile(true, true), Spawn(true), Register(0)]
  }

  function ReplaceTrace(): seq<Event> {
    [Reconcile(true, true), Flag, KillDone, Spawn(true), Register(1)]
  }

  function TakeTrace(): seq<Event> {
    [WatchTake(1), Reconcile(true, true), Spawn(true), Register(2)]
  }

  /** One child started by hand. */
  function FirstChild(): State {
    State(Slot(Some(Live(1, 0)), None, 0, None), map[1 := Child(true, false, Waiting)], Idle, 2, [])
  }

  /** A run and where it leads. */
  ghost predicate Leads(s: State, es: seq<Event>, t: State) {
    Runs(s, es) && After(s, es) == t
  }

  lemma Compose(s: State, es: seq<Event>, t: State, fs: seq<Event>, u: State)
    requires Leads(s, es, t) && Leads(t, fs, u)
    ensures Leads(s, es + fs, u)
  {
    RunsAppend(s, es, fs);
  }

  lemma StartFirst()
    ensures Leads(Initial, StartTrace(), FirstChild())
  {
    RunOf3(Initial, Reconcile(true, true), Spawn(true), Register(0), FirstChild());
  }

  lemma ReplaceFirst() returns (t: State)
    ensures Leads(FirstChild(), ReplaceTrace(), t)
    ensures t == State(Slot(Some(Live(2, 1)), None, 0, None),
                       map[1 := Child(false, true, Waiting), 2 := Child(true, false, Waiting)], Idle, 3, [])
  {
    t := State(Slot(Some(Live(2, 1)), None, 0, None),
               map[1 := Child(false, true, Waiting), 2 := Child(true, false, Waiting)], Idle, 3, []);
    RunOf5(FirstChild(), Reconcile(true, true), Flag, KillDone, Spawn(true), Register(1), t);
  }

  lemma TakeOfLate(s: State) returns (t: State)
    requires s == State(Slot(Some(Live(2, 1)), None, 0, None),
                        map[1 := Child(false, true, Waiting), 2 := Child(true, false, Waiting)], Idle, 3, [])
    ensures Leads(s, TakeTrace(), t)
    ensures t.phase.Idle? && Recorded(t, 3)
    ensures 2 in t.children && t.children[2].alive && 3 in t.children && t.children[3].alive
  {
    var one := Child(true, false, Waiting);
    t := State(Slot(Some(Live(3, 2)), None, 0, None),
               map[1 := Child(false, true, Exited), 2 := one, 3 := one], Idle, 4, []);
    RunOf4(s, WatchTake(1), Reconcile(true, true), Spawn(true), Register(2), t);
  }

  /** The flag of a stopped child is raised only after the lock is released. If the child dies in
      between, its watchdog counts the exit as a crash and, when its backoff is over, stops and
      restarts the child that the reconcile has meanwhile put in its place. */
  function LateFlagTrace(): seq<Event> {
    StartTrace() + (DieTrace() + (CountTrace() + [Wake(1, true)]))
  }

  lemma LateFlagRestarts() returns (u: State)
    ensures Leads(Initial, LateFlagTrace(), u) && u.phase == Flagging(2, false, true)
  {
    StartFirst();
    var s := DieUnflagged();
    var t := CountThenReplace(s);
    var wake := [Wake(1, true)];
    RunOf1(t, Wake(1, true));
    u := Step(t, Wake(1, true));
    Compose(s, CountTrace(), t, wake, u);
    Compose(FirstChild(), DieTrace(), s, CountTrace() + wake, u);
    Compose(Initial, StartTrace(), FirstChild(), DieTrace() + (CountTrace() + wake), u);
  }

  function DieTrace(): seq<Event> {
    [Reconcile(true, true), Die(1), WatchTake(1), WatchLook(1)]
  }

  function CountTrace(): seq<Event> {
    [WatchCount(1, false, true), Flag, KillDone, Spawn(true), Register(1)]
  }

  /** The first child, being stopped, has died before its flag was raised. */
  function Unflagged(): State {
    State(Slot(None, None, 0, Some("reconcile")), map[1 := Child(false, false, Unexpected)],
          Flagging(1, true, true), 2, [])
  }

  lemma DieUnflagged() returns (t: State)
    ensures t == Unflagged() && Leads(FirstChild(), DieTrace(), t)
  {
    t := Unflagged();
    RunOf4(FirstChild(), Reconcile(true, true), Die(1), WatchTake(1), WatchLook(1), t);
  }

  lemma CountThenReplace(s: State) returns (t: State)
    requires s == Unflagged()
    ensures Leads(s, CountTrace(), t)
    ensures Enabled(t, Wake(1, true)) && Step(t, Wake(1, true)).phase == Flagging(2, false, true)
  {
    t := State(Slot(Some(Live(2, 1)), None, 0, None),
               map[1 := Child(false, true, Asleep), 2 := Child(true, false, Waiting)], Idle, 3, []);
    RunOf5(s, WatchCount(1, false, true), Flag, KillDone, Spawn(true), Register(1), t);
  }

  lemma RunCons(s: State, a: Event, es: seq<Event>, t: State)
    requires Enabled(s, a) && Leads(Step(s, a), es, t)
    ensures Leads(s, [a] + es, t)
  {
    assert ([a] + es)[1..] == es;
  }

  lemma RunOf1(s: State, a: Event)
    requires Enabled(s, a)
    ensures Leads(s, [a], Step(s, a))
  {
    RunCons(s, a, [], Step(s, a));
    assert [a] + [] == [a];
  }

  lemma RunOf3(s: State, a: Event, b: Event, c: Event, t: State)
    requires Enabled(s, a) && Enabled(Step(s, a), b) && Enabled(Step(Step(s, a), b), c)
    requires Step(Step(Step(s, a), b), c) == t
    ensures Leads(s, [a, b, c], t)
  {
    RunOf1(Step(Step(s, a), b), c);
    RunCons(Step(s, a), b, [c], t);
    RunCons(s, a, [b] + [c], t);
    assert [a] + ([b] + [c]) == [a, b, c];
  }

  lemma RunOf4(s: State, a: Event, b: Event, c: Event, d: Event, t: State)
    requires Enabled(s, a) && Enabled(Step(s, a), b) && Enabled(Step(Step(s, a), b), c)
    requires Enabled(Step(Step(Step(s, a), b), c), d)
    requires Step(Step(Step(Step(s, a), b), c), d) == t
    ensures Leads(s, [a, b, c, d], t)
  {
    RunOf3(Step(s, a), b, c, d, t);
    RunCons(s, a, [b, c, d], t);
    assert [a] + [b, c, d] == [a, b, c, d];
  }

  lemma RunOf5(s: State, a: Event, b: Event, c: Event, d: Event, e: Event, t: State)
    requires Enabled(s, a) && Enabled(Step(s, a), b) && Enabled(Step(Step(s, a), b), c)
    requires Enabled(Step(Step(Step(s, a), b), c), d) && Enabled(Step(Step(Step(Step(s, a), b), c), d), e)
    requires Step(Step(Step(Step(Step(s, a), b), c), d), e) == t
    ensures Leads(s, [a, b, c, d, e], t)
  {
    RunOf4(Step(s, a), b, c, d, e, t);
    RunCons(s, a, [b, c, d, e], t);
    assert [a] + [b, c, d, e] == [a, b, c, d, e];
  }

  lemma {:induction false} RunsAppend(s: State, es: seq<Event>, fs: seq<Event>)
    requires Runs(s, es) && Runs(After(s, es), fs)
    ensures Runs(s, es + fs) && After(s, es + fs) == After(After(s, es), fs)
    decreases |es|
  {
    if es == [] {
      assert es + fs == fs;
    } else {
      assert (es + fs)[1..] == es[1..] + fs;
      RunsAppend(Step(s, es[0]), es[1..], fs);
    }
  }

  // ---------------------------------------------------------------- the crash counter

  /** In every run the counter is the count of the exit history, and a restart is asleep only
      while the counter has not passed ten. */
  lemma {:induction false} CounterRefinesHistory(s: State, es: seq<Event>)
    requires Runs(s, es) && s.slot.attempts == AttemptsAfter(s.exits)
    ensures After(s, es).slot.attempts == AttemptsAfter(After(s, es).exits)
    decreases |es|
  {
    if es != [] {
      var t := Step(s, es[0]);
      assert (s.exits + [false])[..|s.exits|] == s.exits && (s.exits + [true])[..|s.exits|] == s.exits;
      CounterRefinesHistory(t, es[1..]);
    }
  }

  lemma {:induction false} RunsSplit(s: State, es: seq<Event>, e: Event)
    requires Runs(s, es + [e])
    ensures Runs(s, es) && Enabled(After(s, es), e) && After(s, es + [e]) == Step(After(s, es), e)
    decreases |es|
  {
    assert (es + [e])[1..] == if es == [] then [] else es[1..] + [e];
    if es != [] {
      RunsSplit(Step(s, es[0]), es[1..], e);
    }
  }

  /** In every run, a counted exit of a wanted child is followed by a restart exactly when at most
      ten exits lie in the history since the last healthy one. */
  lemma RestartsStopAfterTen(es: seq<Event>, pid: nat, healthy: bool)
    requires Runs(Initial, es + [WatchCount(pid, healthy, true)])
    ensures Runs(Initial, es)
    ensures var t := After(Initial, es + [WatchCount(pid, healthy, true)]);
            && pid in t.children && t.exits == After(Initial, es).exits + [healthy]
            && (t.children[pid].watch == Asleep <==> AttemptsAfter(t.exits) <= 10)
  {
    RunsSplit(Initial, es, WatchCount(pid, healthy, true));
    CounterRefinesHistory(Initial, es);
    CounterRefinesHistory(Initial, es + [WatchCount(pid, healthy, true)]);
  }
}
