/** The DNS supervisor: two children, each with its own slot and watchdogs, whose restarts run
    one shared reconcile pass that touches both. How often can a crash loop respawn them? */
module DnsSupervisor {
  import opened Text
  import opened SupervisorSlot

  datatype Kind = Dnscrypt | Tor

  /** One value per child kind. */
  datatype Two<T> = Two(dnscrypt: T, tor: T) {
    function Of(k: Kind): T {
      if k == Dnscrypt then dnscrypt else tor
    }

    function With(k: Kind, v: T): Two<T> {
      if k == Dnscrypt then Two(v, tor) else Two(dnscrypt, v)
    }
  }

  datatype Watch = Waiting | Exited | Finished

  datatype Child = Child(kind: Kind, stopping: bool, watch: Watch)

  /** The reconcile passes in progress, by where they stand; passes may overlap. */
  datatype Passes = Passes(atDnscrypt: nat, atTor: nat, atTorSpawn: nat)

  /** `asleep` counts the watchdogs waiting out a backoff. The last four fields only count what
      has happened. */
  datatype State = State(
    slots: Two<Slot>,
    children: map<nat, Child>,
    nextPid: nat,
    asleep: Two<nat>,
    running: Passes,
    scheduled: Two<nat>,
    healthyExits: Two<nat>,
    passes: nat,
    spawns: Two<nat>)

  /** The outcome of one child's part of a pass. */
  datatype Outcome = Done | Disabled | Failed

  datatype Event =
    | WatchTake(pid: nat, flagged: bool)
    | WatchCount(pid: nat, healthy: bool)
    | Wake(kind: Kind)
    | DnscryptPart(now: nat, out: Outcome)
    | TorStopPart(out: Outcome)
    | TorSpawnPart(now: nat, ok: bool)

  predicate Watches(s: State, pid: nat, w: Watch) {
    pid in s.children && s.children[pid].watch == w
  }

  predicate Enabled(s: State, e: Event) {
    match e
    case WatchTake(pid, flagged) => Watches(s, pid, Waiting) && (flagged ==> s.children[pid].stopping)
    case WatchCount(pid, _) => Watches(s, pid, Exited)
    case Wake(k) => s.asleep.Of(k) > 0
    case DnscryptPart(_, _) => s.running.atDnscrypt > 0
    case TorStopPart(_) => s.running.atTor > 0
    case TorSpawnPart(_, _) => s.running.atTorSpawn > 0
  }

  function WithSlot(s: State, k: Kind, slot: Slot): State {
    s.(slots := s.slots.With(k, slot))
  }

  function WithChild(s: State, pid: nat, c: Child): State {
    s.(children := s.children[pid := c])
  }

  /** stop_if_running: take the record; the child's shutdown flag goes up some time from now, so
      its watchdog may or may not find it raised. */
  function StopKind(s: State, k: Kind, reason: string): State {
    var t := WithSlot(s, k, Stopped(s.slots.Of(k), reason));
    var p := s.slots.Of(k).proc;
    if p.Some? && p.value.pid in s.children
    then WithChild(t, p.value.pid, s.children[p.value.pid].(stopping := true))
    else t
  }

  /** Spawn and register without clearing the crash counter. */
  function SpawnKind(s: State, k: Kind, now: nat): State {
    WithChild(WithSlot(s, k, Registered(s.slots.Of(k), Live(s.nextPid, now), false)),
              s.nextPid, Child(k, false, Waiting))
    .(nextPid := s.nextPid + 1, spawns := s.spawns.With(k, s.spawns.Of(k) + 1))
  }

  /** Second watchdog section: the exit is counted unless the row no longer wants the child. */
  function CountExit(wanted: bool, s: State, k: Kind, healthy: bool): State {
    if !wanted then WithSlot(s, k, Unwanted(s.slots.Of(k), "disabled"))
    else
      var slot := Counted(s.slots.Of(k), healthy, "exited");
      var t := WithSlot(s, k, slot)
               .(healthyExits := s.healthyExits.With(k, s.healthyExits.Of(k) + if healthy then 1 else 0));
      if Scheduled(slot.attempts).None? then t
      else t.(asleep := s.asleep.With(k, s.asleep.Of(k) + 1), scheduled := s.scheduled.With(k, s.scheduled.Of(k) + 1))
  }

  /** dnscrypt-proxy reloads when it is running and is spawned when it is not. */
  function DnscryptStep(s: State, now: nat, out: Outcome): State {
    match out
    case Failed => s
    case Disabled => StopKind(s, Dnscrypt, "disabled")
    case Done =>
      if s.slots.dnscrypt.proc.Some? then WithSlot(s, Dnscrypt, s.slots.dnscrypt.(disabledReason := None))
      else SpawnKind(s, Dnscrypt, now)
  }

  /** Which children the database row wants; the row does not change during a run. */
  type Wanted = Two<bool>

  function Step(wanted: Wanted, s: State, e: Event): State
    requires Enabled(s, e)
  {
    var run := s.running;
    match e
    case WatchTake(pid, flagged) =>
      var c := s.children[pid];
      WithSlot(WithChild(s, pid, c.(watch := if flagged then Finished else Exited)), c.kind,
               Taken(s.slots.Of(c.kind)))
    case WatchCount(pid, healthy) =>
      var c := s.children[pid];
      CountExit(wanted.Of(c.kind), WithChild(s, pid, c.(watch := Finished)), c.kind, healthy)
    case Wake(k) =>
      s.(asleep := s.asleep.With(k, s.asleep.Of(k) - 1), passes := s.passes + 1,
         running := run.(atDnscrypt := run.atDnscrypt + 1))
    case DnscryptPart(now, out) =>
      DnscryptStep(s.(running := run.(atDnscrypt := run.atDnscrypt - 1, atTor := run.atTor + 1)), now, out)
    case TorStopPart(out) =>
      var left := run.(atTor := run.atTor - 1);
      (match out
       case Failed => s.(running := left)
       case Disabled => StopKind(s.(running := left), Tor, "disabled")
       case Done =>
         var t := s.(running := left.(atTorSpawn := left.atTorSpawn + 1));
         if s.slots.tor.proc.Some? then StopKind(t, Tor, "config reload") else t)
    case TorSpawnPart(now, ok) =>
      var t := s.(running := run.(atTorSpawn := run.atTorSpawn - 1));
      if ok then SpawnKind(t, Tor, now) else t
  }

  // ---------------------------------------------------------------- what an exit and a pass bring about

  /** The recorded child of its kind, with its watchdog waiting and nobody stopping it. */
  predicate Up(s: State, k: Kind, pid: nat, since: nat) {
    && s.slots.Of(k).proc == Some(Live(pid, since))
    && pid in s.children && s.children[pid] == Child(k, false, Waiting)
  }

  /** The next pid is not in use. */
  predicate PidsUsed(s: State) {
    && (forall pid :: pid in s.children ==> pid < s.nextPid)
    && (s.slots.dnscrypt.proc.Some? ==> s.slots.dnscrypt.proc.value.pid < s.nextPid)
    && (s.slots.tor.proc.Some? ==> s.slots.tor.proc.value.pid < s.nextPid)
  }

  lemma StepKeepsPids(wanted: Wanted, s: State, e: Event)
    requires PidsUsed(s) && Enabled(s, e)
    ensures PidsUsed(Step(wanted, s, e))
  {
  }

  /** A counted exit schedules a restart exactly when the row wants the child and its exit was
      judged healthy or fewer than ten were counted before; the other child's count is untouched. */
  lemma ExitSchedulesIff(wanted: Wanted, s: State, pid: nat, healthy: bool)
    requires Enabled(s, WatchCount(pid, healthy))
    ensures var (t, k) := (Step(wanted, s, WatchCount(pid, healthy)), s.children[pid].kind);
            var other := if k == Dnscrypt then Tor else Dnscrypt;
            && t.asleep.Of(k) == s.asleep.Of(k) + (
                 if wanted.Of(k) && (healthy || s.slots.Of(k).attempts < 10) then 1 else 0)
            && t.asleep.Of(other) == s.asleep.Of(other) && t.slots.Of(other) == s.slots.Of(other)
            && t.slots.Of(k).proc == s.slots.Of(k).proc
            && t.slots.Of(k).attempts == if !wanted.Of(k) then 0 else if healthy then 1 else s.slots.Of(k).attempts + 1
  {
  }

  /** The dnscrypt-proxy part of a pass, when it goes through: a running one is kept, and one that
      is gone is started again under a new pid. Tor's slot is left to the next part. */
  lemma DnscryptPartBringsUp(wanted: Wanted, s: State, now: nat)
    requires Enabled(s, DnscryptPart(now, Done))
    ensures var t := Step(wanted, s, DnscryptPart(now, Done));
            && (if s.slots.dnscrypt.proc.Some?
                then t.slots.dnscrypt.proc == s.slots.dnscrypt.proc && t.children == s.children
                else Up(t, Dnscrypt, s.nextPid, now) && t.spawns.dnscrypt == s.spawns.dnscrypt + 1)
            && t.slots.dnscrypt.attempts == s.slots.dnscrypt.attempts && t.slots.dnscrypt.disabledReason == None
            && t.slots.tor == s.slots.tor && t.running.atTor == s.running.atTor + 1
  {
  }

  /** A child the pass finds switched off: its record goes, its process is being stopped, and nothing
      is started in its place. Where a part fails, the child's record stays as it was. Only a
      dnscrypt-proxy part leads on to tor's whatever its outcome. */
  lemma SwitchedOffGoesDown(wanted: Wanted, s: State, now: nat, k: Kind)
    requires if k == Dnscrypt then s.running.atDnscrypt > 0 else s.running.atTor > 0
    ensures var off := Step(wanted, s, if k == Dnscrypt then DnscryptPart(now, Disabled) else TorStopPart(Disabled));
            && off.slots.Of(k).proc == None && off.slots.Of(k).disabledReason.Some?
            && off.spawns == s.spawns && off.nextPid == s.nextPid
            && (forall pid, since :: s.slots.Of(k).proc == Some(Live(pid, since)) && pid in s.children ==>
                  pid in off.children && off.children[pid].stopping)
            && off.running.atTor == (if k == Dnscrypt then s.running.atTor + 1 else s.running.atTor - 1)
            && off.running.atTorSpawn == s.running.atTorSpawn
    ensures var failed := Step(wanted, s, if k == Dnscrypt then DnscryptPart(now, Failed) else TorStopPart(Failed));
            && failed.slots == s.slots && failed.children == s.children
            && failed.running.atTor == (if k == Dnscrypt then s.running.atTor + 1 else s.running.atTor - 1)
            && failed.running.atTorSpawn == s.running.atTorSpawn
  {
  }

  /** The tor parts of a pass, when they go through: whatever ran is being stopped, and a new child
      is up in its place. */
  lemma TorPartsBringUp(wanted: Wanted, s: State, now: nat)
    requires Enabled(s, TorStopPart(Done))
    requires PidsUsed(s)
    ensures var stopped := Step(wanted, s, TorStopPart(Done));
            && Enabled(stopped, TorSpawnPart(now, true))
            && var t := Step(wanted, stopped, TorSpawnPart(now, true));
               && Up(t, Tor, s.nextPid, now) && t.spawns.tor == s.spawns.tor + 1
               && t.slots.tor.attempts == s.slots.tor.attempts
               && t.slots.dnscrypt == s.slots.dnscrypt
               && forall pid, since :: s.slots.tor.proc == Some(Live(pid, since)) && pid in s.children ==>
                    t.children[pid].stopping
  {
  }

  /** A pass that goes through ends with both children up, the ones it had to start under new pids. */
  lemma PassBringsUp(wanted: Wanted, s: State, now: nat)
    requires PidsUsed(s) && s.running.atDnscrypt > 0
    ensures var es := [DnscryptPart(now, Done), TorStopPart(Done), TorSpawnPart(now, true)];
            && Runs(wanted, s, es)
            && var t := After(wanted, s, es);
               && (if s.slots.dnscrypt.proc.Some? then t.slots.dnscrypt.proc == s.slots.dnscrypt.proc
                   else Up(t, Dnscrypt, s.nextPid, now))
               && exists pid :: s.nextPid <= pid && Up(t, Tor, pid, now)
  {
    var half := Step(wanted, s, DnscryptPart(now, Done));
    DnscryptPartBringsUp(wanted, s, now);
    StepKeepsPids(wanted, s, DnscryptPart(now, Done));
    var stopped := Step(wanted, half, TorStopPart(Done));
    TorPartsBringUp(wanted, half, now);
    var t := Step(wanted, stopped, TorSpawnPart(now, true));
    assert Up(t, Tor, half.nextPid, now);
    RunsCons(wanted, stopped, TorSpawnPart(now, true), []);
    RunsCons(wanted, half, TorStopPart(Done), [TorSpawnPart(now, true)]);
    RunsCons(wanted, s, DnscryptPart(now, Done), [TorStopPart(Done), TorSpawnPart(now, true)]);
  }

  /** The exit of a wanted child, up to the pass that its watchdog starts. */
  lemma ExitStartsPass(wanted: Wanted, s: State, pid: nat, since: nat, k: Kind, healthy: bool) returns (t: State)
    requires Up(s, k, pid, since) && wanted.Of(k) && (healthy || s.slots.Of(k).attempts < 10) && PidsUsed(s)
    ensures var es := [WatchTake(pid, false), WatchCount(pid, healthy), Wake(k)];
            Runs(wanted, s, es) && t == After(wanted, s, es)
    ensures PidsUsed(t) && t.slots.Of(k).proc == None && t.running.atDnscrypt > 0 && t.nextPid == s.nextPid
  {
    var taken := Step(wanted, s, WatchTake(pid, false));
    var counted := Step(wanted, taken, WatchCount(pid, healthy));
    ExitSchedulesIff(wanted, taken, pid, healthy);
    t := Step(wanted, counted, Wake(k));
    RunsCons(wanted, counted, Wake(k), []);
    RunsCons(wanted, taken, WatchCount(pid, healthy), [Wake(k)]);
    RunsCons(wanted, s, WatchTake(pid, false), [WatchCount(pid, healthy), Wake(k)]);
  }

  /** A child that dies while it is wanted comes back: its watchdog takes the record and counts the
      exit, and the pass it starts, when it goes through, ends with that child up under a new pid. */
  lemma DeadChildComesBack(wanted: Wanted, s: State, pid: nat, since: nat, k: Kind, healthy: bool, now: nat)
    requires Up(s, k, pid, since) && wanted.Of(k) && (healthy || s.slots.Of(k).attempts < 10) && PidsUsed(s)
    ensures var es := [WatchTake(pid, false), WatchCount(pid, healthy), Wake(k)]
                      + [DnscryptPart(now, Done), TorStopPart(Done), TorSpawnPart(now, true)];
            Runs(wanted, s, es) && exists again :: s.nextPid <= again && Up(After(wanted, s, es), k, again, now)
  {
    var woken := ExitStartsPass(wanted, s, pid, since, k, healthy);
    PassBringsUp(wanted, woken, now);
    RunsAppend(wanted, s, [WatchTake(pid, false), WatchCount(pid, healthy), Wake(k)],
               [DnscryptPart(now, Done), TorStopPart(Done), TorSpawnPart(now, true)]);
  }

  lemma {:induction false} RunsAppend(wanted: Wanted, s: State, es: seq<Event>, fs: seq<Event>)
    requires Runs(wanted, s, es) && Runs(wanted, After(wanted, s, es), fs)
    ensures Runs(wanted, s, es + fs) && After(wanted, s, es + fs) == After(wanted, After(wanted, s, es), fs)
    decreases |es|
  {
    if es == [] {
      assert es + fs == fs;
    } else {
      assert (es + fs)[1..] == es[1..] + fs;
      RunsAppend(wanted, Step(wanted, s, es[0]), es[1..], fs);
    }
  }

  lemma RunsCons(wanted: Wanted, s: State, e: Event, es: seq<Event>)
    requires Enabled(s, e) && Runs(wanted, Step(wanted, s, e), es)
    ensures Runs(wanted, s, [e] + es) && After(wanted, s, [e] + es) == After(wanted, Step(wanted, s, e), es)
  {
    assert ([e] + es)[1..] == es;
  }

  ghost predicate Runs(wanted: Wanted, s: State, es: seq<Event>)
    decreases |es|
  {
    es == [] || (Enabled(s, es[0]) && Runs(wanted, Step(wanted, s, es[0]), es[1..]))
  }

  function After(wanted: Wanted, s: State, es: seq<Event>): State
    requires Runs(wanted, s, es)
    decreases |es|
  {
    if es == [] then s else After(wanted, Step(wanted, s, es[0]), es[1..])
  }

  // ---------------------------------------------------------------- the bound

  /** Zero counters, no watchdog asleep and no pass running; any children may be alive. */
  predicate Fresh(s: State) {
    && s.slots.dnscrypt.attempts == 0 && s.slots.tor.attempts == 0
    && s.asleep == Two(0, 0) && s.running == Passes(0, 0, 0)
    && s.scheduled == Two(0, 0) && s.healthyExits == Two(0, 0) && s.passes == 0 && s.spawns == Two(0, 0)
  }

  /** Restarts one child's watchdogs may have scheduled so far. */
  predicate Budget(wanted: Wanted, s: State, k: Kind) {
    && s.scheduled.Of(k) <= 10 * s.healthyExits.Of(k) + Min(s.slots.Of(k).attempts, 10)
    && (!wanted.Of(k) ==> s.scheduled.Of(k) == 0 && s.healthyExits.Of(k) == 0)
  }

  predicate Inv(wanted: Wanted, s: State) {
    && Budget(wanted, s, Dnscrypt) && Budget(wanted, s, Tor)
    && s.passes + s.asleep.dnscrypt + s.asleep.tor == s.scheduled.dnscrypt + s.scheduled.tor
    && s.spawns.dnscrypt + s.running.atDnscrypt <= s.passes
    && s.spawns.tor + s.running.atDnscrypt + s.running.atTor + s.running.atTorSpawn <= s.passes
  }

  lemma CountKeepsInv(wanted: Wanted, s: State, k: Kind, healthy: bool)
    requires Inv(wanted, s)
    ensures Inv(wanted, CountExit(wanted.Of(k), s, k, healthy))
  {
  }

  lemma TorStopKeepsInv(wanted: Wanted, s: State, out: Outcome)
    requires Inv(wanted, s) && Enabled(s, TorStopPart(out))
    ensures Inv(wanted, Step(wanted, s, TorStopPart(out)))
  {
  }

  lemma TorSpawnKeepsInv(wanted: Wanted, s: State, now: nat, ok: bool)
    requires Inv(wanted, s) && Enabled(s, TorSpawnPart(now, ok))
    ensures Inv(wanted, Step(wanted, s, TorSpawnPart(now, ok)))
  {
  }

  lemma StepKeepsInv(wanted: Wanted, s: State, e: Event)
    requires Inv(wanted, s) && Enabled(s, e)
    ensures Inv(wanted, Step(wanted, s, e))
  {
    match e
    case WatchTake(_, _) =>
    case WatchCount(pid, healthy) =>
      var c := s.children[pid];
      CountKeepsInv(wanted, WithChild(s, pid, c.(watch := Finished)), c.kind, healthy);
    case Wake(_) =>
    case DnscryptPart(_, _) =>
    case TorStopPart(out) => TorStopKeepsInv(wanted, s, out);
    case TorSpawnPart(now, ok) => TorSpawnKeepsInv(wanted, s, now, ok);
  }

  lemma {:induction false} RunsKeepInv(wanted: Wanted, s: State, es: seq<Event>)
    requires Inv(wanted, s) && Runs(wanted, s, es)
    ensures Inv(wanted, After(wanted, s, es))
    decreases |es|
  {
    if es != [] {
      StepKeepsInv(wanted, s, es[0]);
      RunsKeepInv(wanted, Step(wanted, s, es[0]), es[1..]);
    }
  }

  /** Crash loops end although every pass touches both children: with no manual reconcile and
      an unchanged row, the two watchdogs start at most ten passes each plus ten for every
      exit judged healthy, and each child is spawned at most once per pass. */
  lemma CrashLoopsEnd(wanted: Wanted, s: State, es: seq<Event>)
    requires Fresh(s) && Runs(wanted, s, es)
    ensures var t := After(wanted, s, es);
            && t.passes <= 10 * (2 + t.healthyExits.dnscrypt + t.healthyExits.tor)
            && t.spawns.dnscrypt <= t.passes && t.spawns.tor <= t.passes
  {
    RunsKeepInv(wanted, s, es);
  }

  predicate NoneHealthy(es: seq<Event>) {
    forall e :: e in es && e.WatchCount? ==> !e.healthy
  }

  lemma {:induction false} NoHealthyExits(wanted: Wanted, s: State, es: seq<Event>)
    requires Runs(wanted, s, es) && NoneHealthy(es)
    ensures After(wanted, s, es).healthyExits == s.healthyExits
    decreases |es|
  {
    if es != [] {
      assert es[0] in es;
      NoHealthyExits(wanted, Step(wanted, s, es[0]), es[1..]);
    }
  }

  /** With no exit judged healthy at most twenty passes run, so dnscrypt-proxy and tor are each
      respawned at most twenty times. */
  lemma AtMostTwentyRespawns(wanted: Wanted, s: State, es: seq<Event>)
    requires Fresh(s) && Runs(wanted, s, es) && NoneHealthy(es)
    ensures var t := After(wanted, s, es);
            t.passes <= 20 && t.spawns.dnscrypt <= 20 && t.spawns.tor <= 20
  {
    CrashLoopsEnd(wanted, s, es);
    NoHealthyExits(wanted, s, es);
  }
}
