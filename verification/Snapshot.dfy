/** The RAM database and its durable snapshot file: backup into a private directory, chmod,
    rename, cleanup, with failures after any step, writes and crashes in between, and restore at
    the next start. */
module Snapshot {

  /** A database file: absent, cut short by a failed or interrupted copy, or a complete backup of
      the RAM state numbered `taken`. */
  datatype File<D> = Absent | Torn | Whole(content: D, taken: nat)

  /** Where one snapshot_to call stands; Done means only its cleanup is left. */
  datatype Phase = Created | Copied | Locked | Done
  datatype Job = Job(phase: Phase, copied: nat)

  /** A rename that happened: when its backup was taken, when it was promoted, which state. */
  datatype Promo = Promo(copied: nat, promoted: nat, taken: nat)

  /** Every state RAM ever had (the last is the current one), the durable path, the private
      directories, the running jobs, a step counter and the promotions so far. */
  datatype Sys<D> = Sys(history: seq<D>, durable: File<D>, dirs: map<nat, File<D>>,
                        jobs: map<nat, Job>, clock: nat, promos: seq<Promo>)

  datatype Event<D> =
    | Write(d: D)
    | Begin(id: nat, lockedDown: bool)
    | Backup(id: nat, ok: bool)
    | Chmod(id: nat, ok: bool)
    | Promote(id: nat, ok: bool)
    | Clean(id: nat, removed: bool)
    | Crash(readable: bool)

  /** Schema creation and migrations over a restored database, and the seeded fresh one. */
  datatype Boot<!D> = Boot(upgrade: D -> D, seeded: D)

  /** init_in_memory_db: only a whole snapshot that can be read is adopted. */
  function Restored<D>(boot: Boot<D>, durable: File<D>, readable: bool): D {
    if durable.Whole? && readable then boot.upgrade(durable.content) else boot.seeded
  }

  predicate At<D>(s: Sys<D>, id: nat, phase: Phase) {
    id in s.jobs && s.jobs[id].phase == phase && id in s.dirs
  }

  function Moved<D>(s: Sys<D>, id: nat, phase: Phase): map<nat, Job>
    requires id in s.jobs
  {
    s.jobs[id := s.jobs[id].(phase := phase)]
  }

  /** One event; an event whose job is not where the event needs it changes nothing. */
  function Step<D>(boot: Boot<D>, s: Sys<D>, e: Event<D>): Sys<D> {
    Acted(boot, s, e).(clock := s.clock + 1)
  }

  function Acted<D>(boot: Boot<D>, s: Sys<D>, e: Event<D>): Sys<D> {
    match e
    case Write(d) => s.(history := s.history + [d])
    case Begin(id, lockedDown) =>
      if id in s.dirs || id in s.jobs then s
      else s.(dirs := s.dirs[id := Absent], jobs := s.jobs[id := Job(if lockedDown then Created else Done, s.clock)])
    case Backup(id, ok) =>
      if !At(s, id, Created) || s.history == [] then s
      else if !ok then s.(dirs := s.dirs[id := Torn], jobs := Moved(s, id, Done))
      else s.(dirs := s.dirs[id := Whole(s.history[|s.history| - 1], |s.history| - 1)],
              jobs := s.jobs[id := Job(Copied, s.clock)])
    case Chmod(id, ok) =>
      if !At(s, id, Copied) then s else s.(jobs := Moved(s, id, if ok then Locked else Done))
    case Promote(id, ok) =>
      if !At(s, id, Locked) then s
      else if !ok || !s.dirs[id].Whole? then s.(jobs := Moved(s, id, Done))
      else s.(durable := s.dirs[id], dirs := s.dirs[id := Absent], jobs := Moved(s, id, Done),
              promos := s.promos + [Promo(s.jobs[id].copied, s.clock, s.dirs[id].taken)])
    case Clean(id, removed) =>
      if !At(s, id, Done) then s
      else s.(dirs := if removed then s.dirs - {id} else s.dirs, jobs := s.jobs - {id})
    case Crash(readable) =>
      s.(history := s.history + [Restored(boot, s.durable, readable)], jobs := map[])
  }

  function Started<D>(boot: Boot<D>, durable: File<D>, readable: bool): Sys<D> {
    Sys([Restored(boot, durable, readable)], durable, map[], map[], 0, [])
  }

  function After<D>(boot: Boot<D>, s: Sys<D>, es: seq<Event<D>>): Sys<D> {
    if es == [] then s else Step(boot, After(boot, s, es[..|es| - 1]), es[|es| - 1])
  }

  // ---------------------------------------------------------------- the invariant

  predicate IsBackup<D(==)>(f: File<D>, history: seq<D>) {
    f.Whole? && f.taken < |history| && f.content == history[f.taken]
  }

  predicate PromosPast(promos: seq<Promo>, clock: nat, versions: nat) {
    forall i :: 0 <= i < |promos| ==> promos[i].copied <= promos[i].promoted < clock && promos[i].taken < versions
  }

  predicate HoldsBackup<D(==)>(s: Sys<D>, id: nat)
    requires id in s.jobs
  {
    id in s.dirs && IsBackup(s.dirs[id], s.history) && s.jobs[id].copied < s.clock
  }

  predicate HasCopy(job: Job) {
    job.phase == Copied || job.phase == Locked
  }

  ghost predicate JobsHoldBackups<D>(s: Sys<D>) {
    forall id :: id in s.jobs && HasCopy(s.jobs[id]) ==> HoldsBackup(s, id)
  }

  /** The durable path holds what it held at the start or the last promoted state. */
  ghost predicate DurableIsLast<D>(s: Sys<D>, initial: File<D>) {
    if s.promos == [] then s.durable == initial
    else
      var last := s.promos[|s.promos| - 1].taken;
      last < |s.history| && s.durable == Whole(s.history[last], last)
  }

  ghost predicate Inv<D>(s: Sys<D>, initial: File<D>) {
    && s.history != []
    && PromosPast(s.promos, s.clock, |s.history|)
    && JobsHoldBackups(s)
    && DurableIsLast(s, initial)
  }

  lemma HistoryGrows<D>(s: Sys<D>, t: Sys<D>, d: D, initial: File<D>)
    requires Inv(s, initial)
    requires t == s.(history := s.history + [d], clock := s.clock + 1, jobs := t.jobs)
    requires t.jobs == s.jobs || t.jobs == map[]
    ensures Inv(t, initial)
  {
  }

  /** A step that touches one job and its directory only. */
  lemma OneJobMoves<D>(s: Sys<D>, t: Sys<D>, id: nat, initial: File<D>)
    requires Inv(s, initial)
    requires t == s.(dirs := t.dirs, jobs := t.jobs, clock := s.clock + 1)
    requires forall j :: j in t.jobs && j != id ==> j in s.jobs && t.jobs[j] == s.jobs[j]
    requires forall j :: j in s.dirs && j != id ==> j in t.dirs && t.dirs[j] == s.dirs[j]
    requires id in t.jobs && HasCopy(t.jobs[id]) ==> HoldsBackup(t, id)
    ensures Inv(t, initial)
  {
    forall j | j in t.jobs && HasCopy(t.jobs[j]) ensures HoldsBackup(t, j) {
      if j != id {
        assert HoldsBackup(s, j);
      }
    }
  }

  lemma BackupHolds<D>(boot: Boot<D>, s: Sys<D>, id: nat, initial: File<D>)
    requires Inv(s, initial) && At(s, id, Created)
    ensures HoldsBackup(Step(boot, s, Backup(id, true)), id)
  {
  }

  lemma PromoteKeepsInv<D>(boot: Boot<D>, s: Sys<D>, id: nat, initial: File<D>)
    requires Inv(s, initial) && At(s, id, Locked)
    ensures Inv(Step(boot, s, Promote(id, true)), initial)
  {
    assert HoldsBackup(s, id);
    var t := Step(boot, s, Promote(id, true));
    forall j | j in t.jobs && HasCopy(t.jobs[j]) ensures HoldsBackup(t, j) {
      assert HoldsBackup(s, j);
    }
  }

  lemma IdleKeepsInv<D>(s: Sys<D>, initial: File<D>)
    requires Inv(s, initial)
    ensures Inv(s.(clock := s.clock + 1), initial)
  {
    var t := s.(clock := s.clock + 1);
    forall j | j in t.jobs && HasCopy(t.jobs[j]) ensures HoldsBackup(t, j) {
      assert HoldsBackup(s, j);
    }
  }

  lemma BeginKeepsInv<D>(boot: Boot<D>, s: Sys<D>, e: Event<D>, initial: File<D>)
    requires Inv(s, initial) && e.Begin?
    ensures Inv(Step(boot, s, e), initial)
  {
    if e.id in s.dirs || e.id in s.jobs {
      IdleKeepsInv(s, initial);
    } else {
      OneJobMoves(s, Step(boot, s, e), e.id, initial);
    }
  }

  lemma BackupKeepsInv<D>(boot: Boot<D>, s: Sys<D>, e: Event<D>, initial: File<D>)
    requires Inv(s, initial) && e.Backup?
    ensures Inv(Step(boot, s, e), initial)
  {
    if At(s, e.id, Created) {
      BackupHolds(boot, s, e.id, initial);
      OneJobMoves(s, Step(boot, s, e), e.id, initial);
    } else {
      IdleKeepsInv(s, initial);
    }
  }

  lemma ChmodKeepsInv<D>(boot: Boot<D>, s: Sys<D>, e: Event<D>, initial: File<D>)
    requires Inv(s, initial) && e.Chmod?
    ensures Inv(Step(boot, s, e), initial)
  {
    if At(s, e.id, Copied) {
      assert HoldsBackup(s, e.id);
      OneJobMoves(s, Step(boot, s, e), e.id, initial);
    } else {
      IdleKeepsInv(s, initial);
    }
  }

  lemma FailedPromoteKeepsInv<D>(boot: Boot<D>, s: Sys<D>, e: Event<D>, initial: File<D>)
    requires Inv(s, initial) && e.Promote? && !(e.ok && At(s, e.id, Locked))
    ensures Inv(Step(boot, s, e), initial)
  {
    if At(s, e.id, Locked) {
      OneJobMoves(s, Step(boot, s, e), e.id, initial);
    } else {
      IdleKeepsInv(s, initial);
    }
  }

  lemma CleanKeepsInv<D>(boot: Boot<D>, s: Sys<D>, e: Event<D>, initial: File<D>)
    requires Inv(s, initial) && e.Clean?
    ensures Inv(Step(boot, s, e), initial)
  {
    if At(s, e.id, Done) {
      OneJobMoves(s, Step(boot, s, e), e.id, initial);
    } else {
      IdleKeepsInv(s, initial);
    }
  }

  lemma StepKeepsInv<D>(boot: Boot<D>, s: Sys<D>, e: Event<D>, initial: File<D>)
    requires Inv(s, initial)
    ensures Inv(Step(boot, s, e), initial)
  {
    match e
    case Write(d) => HistoryGrows(s, Step(boot, s, e), d, initial);
    case Crash(readable) => HistoryGrows(s, Step(boot, s, e), Restored(boot, s.durable, readable), initial);
    case Begin(_, _) => BeginKeepsInv(boot, s, e, initial);
    case Backup(_, _) => BackupKeepsInv(boot, s, e, initial);
    case Chmod(_, _) => ChmodKeepsInv(boot, s, e, initial);
    case Clean(_, _) => CleanKeepsInv(boot, s, e, initial);
    case Promote(id, ok) =>
      if ok && At(s, id, Locked) {
        PromoteKeepsInv(boot, s, id, initial);
      } else {
        FailedPromoteKeepsInv(boot, s, e, initial);
      }
  }

  lemma {:induction false} RunKeepsInv<D>(boot: Boot<D>, initial: File<D>, readable: bool, es: seq<Event<D>>)
    ensures Inv(After(boot, Started(boot, initial, readable), es), initial)
  {
    if es != [] {
      RunKeepsInv(boot, initial, readable, es[..|es| - 1]);
      StepKeepsInv(boot, After(boot, Started(boot, initial, readable), es[..|es| - 1]), es[|es| - 1], initial);
    }
  }

  // ---------------------------------------------------------------- crash consistency

  /** Whatever steps ran, failed, were interleaved or cut off: the durable path holds its initial
      content or one complete backup of a state RAM really had, and never a torn file unless it
      was torn to begin with. */
  lemma DurableIsNeverTorn<D>(boot: Boot<D>, initial: File<D>, readable: bool, es: seq<Event<D>>)
    ensures var s := After(boot, Started(boot, initial, readable), es);
            s.durable == initial || IsBackup(s.durable, s.history)
  {
    RunKeepsInv(boot, initial, readable, es);
  }

  /** One more step leaves the durable path as it was, or promotes one whole backup of an earlier
      state in a single rename. */
  lemma EachStepKeepsOrPromotes<D>(boot: Boot<D>, initial: File<D>, readable: bool, es: seq<Event<D>>, e: Event<D>)
    ensures var s := After(boot, Started(boot, initial, readable), es);
            var t := Step(boot, s, e);
            || t.durable == s.durable
            || (e.Promote? && e.ok && At(s, e.id, Locked)
                && t.durable == s.dirs[e.id] && IsBackup(t.durable, s.history))
  {
    RunKeepsInv(boot, initial, readable, es);
    var s := After(boot, Started(boot, initial, readable), es);
    if e.Promote? && At(s, e.id, Locked) {
      assert HoldsBackup(s, e.id);
    }
  }

  /** A crash and a readable restart bring back the most recently promoted state. */
  lemma RestartRestoresLastPromoted<D>(boot: Boot<D>, initial: File<D>, readable: bool, es: seq<Event<D>>)
    requires After(boot, Started(boot, initial, readable), es).promos != []
    ensures var s := After(boot, Started(boot, initial, readable), es);
            var t := Step(boot, s, Crash(true));
            var last := s.promos[|s.promos| - 1].taken;
            && last < |s.history|
            && t.history == s.history + [boot.upgrade(s.history[last])] && t.durable == s.durable
  {
    RunKeepsInv(boot, initial, readable, es);
  }

  // ---------------------------------------------------------------- copy order is age

  /** RAM gets a new state. */
  predicate Changes(e: Event) {
    e.Write? || e.Crash?
  }

  /** How many states RAM had had after c events. */
  function States<D>(boot: Boot<D>, s: Sys<D>, es: seq<Event<D>>, c: nat): nat {
    |After(boot, s, if c <= |es| then es[..c] else es).history|
  }

  lemma StatesGrow<D>(boot: Boot<D>, s: Sys<D>, es: seq<Event<D>>, c: nat)
    requires c < |es|
    ensures States(boot, s, es, c + 1) == States(boot, s, es, c) + if Changes(es[c]) then 1 else 0
  {
    assert es[..c + 1][..c] == es[..c];
  }

  /** Between two points of a run the number of states grows exactly when some event in between
      changes RAM. */
  lemma {:induction false} StatesGrowIff<D>(boot: Boot<D>, s: Sys<D>, es: seq<Event<D>>, a: nat, b: nat)
    requires a <= b <= |es|
    ensures States(boot, s, es, a) <= States(boot, s, es, b)
    ensures States(boot, s, es, a) < States(boot, s, es, b) <==> exists k :: a <= k < b && Changes(es[k])
  {
    if a < b {
      StatesGrowIff(boot, s, es, a, b - 1);
      StatesGrow(boot, s, es, b - 1);
    }
  }

  /** Every copy, promoted or not, is of the state RAM had when it was made. */
  ghost predicate Dated<D>(s: Sys<D>, states: nat -> nat) {
    && (forall i :: 0 <= i < |s.promos| ==>
          s.promos[i].copied < s.clock && s.promos[i].taken + 1 == states(s.promos[i].copied))
    && (forall id :: id in s.jobs && HasCopy(s.jobs[id]) ==>
          && id in s.dirs && s.dirs[id].Whole? && s.jobs[id].copied < s.clock
          && s.dirs[id].taken + 1 == states(s.jobs[id].copied))
  }

  lemma StepKeepsDated<D>(boot: Boot<D>, s: Sys<D>, e: Event<D>, states: nat -> nat)
    requires Dated(s, states) && states(s.clock) == |s.history|
    ensures Dated(Step(boot, s, e), states)
  {
    if e.Promote? {
      PromoteKeepsDated(boot, s, e, states);
    } else if e.Backup? {
      BackupKeepsDated(boot, s, e, states);
    }
  }

  lemma PromoteKeepsDated<D>(boot: Boot<D>, s: Sys<D>, e: Event<D>, states: nat -> nat)
    requires Dated(s, states) && e.Promote?
    ensures Dated(Step(boot, s, e), states)
  {
  }

  lemma BackupKeepsDated<D>(boot: Boot<D>, s: Sys<D>, e: Event<D>, states: nat -> nat)
    requires Dated(s, states) && states(s.clock) == |s.history| && e.Backup?
    ensures Dated(Step(boot, s, e), states)
  {
  }

  lemma {:induction false} RunIsDated<D>(boot: Boot<D>, s: Sys<D>, es: seq<Event<D>>, fs: seq<Event<D>>)
    requires s.clock == 0 && s.jobs == map[] && s.promos == [] && es <= fs
    ensures var t := After(boot, s, es); t.clock == |es| && Dated(t, c => States(boot, s, fs, c))
  {
    if es != [] {
      var front := es[..|es| - 1];
      RunIsDated(boot, s, front, fs);
      assert fs[..|front|] == front;
      StepKeepsDated(boot, After(boot, s, front), es[|es| - 1], c => States(boot, s, fs, c));
    }
  }

  /** RAM changed at or after event a and before event b. */
  ghost predicate ChangedBetween<D>(es: seq<Event<D>>, a: nat, b: nat) {
    exists k :: a <= k < b && k < |es| && Changes(es[k])
  }

  /** Under any interleaving, one promoted state is older than another exactly when its copy was
      made first and RAM changed between the two copies; when they were renamed plays no part. */
  lemma CopyOrderIsAge<D>(boot: Boot<D>, initial: File<D>, readable: bool, es: seq<Event<D>>, i: nat, j: nat)
    requires var promos := After(boot, Started(boot, initial, readable), es).promos; i < |promos| && j < |promos|
    ensures var promos := After(boot, Started(boot, initial, readable), es).promos;
            promos[i].taken < promos[j].taken <==> ChangedBetween(es, promos[i].copied, promos[j].copied)
  {
    var s := Started(boot, initial, readable);
    var promos := After(boot, s, es).promos;
    RunIsDated(boot, s, es, es);
    var a, b := promos[i].copied, promos[j].copied;
    if a <= b {
      StatesGrowIff(boot, s, es, a, b);
    } else {
      StatesGrowIff(boot, s, es, b, a);
    }
  }

  /** However snapshots overlap, one whose backup was taken after another was promoted is no
      older than it. */
  lemma LaterBackupsAreNewer<D>(boot: Boot<D>, initial: File<D>, readable: bool, es: seq<Event<D>>, i: nat, j: nat)
    requires var promos := After(boot, Started(boot, initial, readable), es).promos;
             i < |promos| && j < |promos| && promos[i].promoted < promos[j].copied
    ensures var promos := After(boot, Started(boot, initial, readable), es).promos;
            promos[i].taken <= promos[j].taken
  {
    RunKeepsInv(boot, initial, readable, es);
    CopyOrderIsAge(boot, initial, readable, es, j, i);
  }

  /** After any run, a rename takes the durable path back to an older state exactly when RAM
      changed between the renamed copy and the copy that the path holds. */
  lemma GoesBackIff<D>(boot: Boot<D>, initial: File<D>, readable: bool, es: seq<Event<D>>, id: nat)
    requires var s := After(boot, Started(boot, initial, readable), es); At(s, id, Locked) && s.promos != []
    ensures var s := After(boot, Started(boot, initial, readable), es);
            var t := Step(boot, s, Promote(id, true));
            && s.durable.Whole? && t.durable.Whole?
            && (t.durable.taken < s.durable.taken
                <==> ChangedBetween(es, s.jobs[id].copied, s.promos[|s.promos| - 1].copied))
  {
    var start := Started(boot, initial, readable);
    var s := After(boot, start, es);
    RunKeepsInv(boot, initial, readable, es);
    RunIsDated(boot, start, es, es);
    assert HoldsBackup(s, id);
    var a, b := s.jobs[id].copied, s.promos[|s.promos| - 1].copied;
    if a <= b {
      StatesGrowIff(boot, start, es, a, b);
    } else {
      StatesGrowIff(boot, start, es, b, a);
    }
  }

  /** Renames happen in the order of their copies, as far as RAM changed in between. */
  ghost predicate InCopyOrder<D>(promos: seq<Promo>, es: seq<Event<D>>) {
    forall i, j :: 0 <= i < j < |promos| ==> !ChangedBetween(es, promos[j].copied, promos[i].copied)
  }

  predicate NeverBack(promos: seq<Promo>) {
    forall i, j :: 0 <= i < j < |promos| ==> promos[i].taken <= promos[j].taken
  }

  /** Over a whole run, under any interleaving, promoted states never go back exactly when the
      renames happened in copy order. */
  lemma NeverGoesBackIff<D>(boot: Boot<D>, initial: File<D>, readable: bool, es: seq<Event<D>>)
    ensures var promos := After(boot, Started(boot, initial, readable), es).promos;
            NeverBack(promos) <==> InCopyOrder(promos, es)
  {
    var promos := After(boot, Started(boot, initial, readable), es).promos;
    forall i, j | 0 <= i < j < |promos|
      ensures promos[i].taken <= promos[j].taken <==> !ChangedBetween(es, promos[j].copied, promos[i].copied)
    {
      CopyOrderIsAge(boot, initial, readable, es, j, i);
    }
  }

  /** When renames happen in copy order the durable path, and so any restart, has the newest state
      that was ever promoted. */
  lemma PromotedNeverGoesBack<D>(boot: Boot<D>, initial: File<D>, readable: bool, es: seq<Event<D>>, i: nat)
    requires var promos := After(boot, Started(boot, initial, readable), es).promos;
             InCopyOrder(promos, es) && i < |promos|
    ensures var s := After(boot, Started(boot, initial, readable), es);
            s.durable.Whole? && s.promos[i].taken <= s.durable.taken
  {
    RunKeepsInv(boot, initial, readable, es);
    NeverGoesBackIff(boot, initial, readable, es);
    DurableIsNewest(After(boot, Started(boot, initial, readable), es), initial, i);
  }

  lemma DurableIsNewest<D>(s: Sys<D>, initial: File<D>, i: nat)
    requires DurableIsLast(s, initial) && NeverBack(s.promos) && i < |s.promos|
    ensures s.durable.Whole? && s.promos[i].taken <= s.durable.taken
  {
  }

  // ---------------------------------------------------------------- snapshots that do not overlap

  /** A snapshot begins only when no other is running. */
  predicate OneAtATime<D>(boot: Boot<D>, s: Sys<D>, es: seq<Event<D>>) {
    forall i :: 0 <= i < |es| && es[i].Begin? ==> After(boot, s, es[..i]).jobs == map[]
  }

  /** Every promotion so far came before the backup of the job now running. */
  ghost predicate Sequential<D>(s: Sys<D>) {
    && (forall i :: 0 <= i < |s.promos| ==> s.promos[i].promoted < s.clock)
    && (forall k, l :: k in s.jobs && l in s.jobs ==> k == l)
    && (forall i, j :: 0 <= i < j < |s.promos| ==> s.promos[i].promoted < s.promos[j].copied)
    && (forall id, i :: id in s.jobs && HasCopy(s.jobs[id]) && 0 <= i < |s.promos| ==>
          s.promos[i].promoted < s.jobs[id].copied)
  }

  lemma PromoteKeepsSequential<D>(boot: Boot<D>, s: Sys<D>, e: Event<D>)
    requires Sequential(s) && e.Promote?
    ensures Sequential(Step(boot, s, e))
  {
  }

  lemma StepKeepsSequential<D>(boot: Boot<D>, s: Sys<D>, e: Event<D>)
    requires Sequential(s) && (e.Begin? ==> s.jobs == map[])
    ensures Sequential(Step(boot, s, e))
  {
    if e.Promote? {
      PromoteKeepsSequential(boot, s, e);
    }
  }

  lemma {:induction false} RunIsSequential<D>(boot: Boot<D>, s: Sys<D>, es: seq<Event<D>>)
    requires Sequential(s) && OneAtATime(boot, s, es)
    ensures Sequential(After(boot, s, es))
  {
    if es != [] {
      var front := es[..|es| - 1];
      assert forall i :: 0 <= i < |front| ==> front[..i] == es[..i];
      RunIsSequential(boot, s, front);
      StepKeepsSequential(boot, After(boot, s, front), es[|es| - 1]);
    }
  }

  /** Snapshots that do not overlap are renamed in copy order. */
  lemma OneAtATimeIsInCopyOrder<D>(boot: Boot<D>, initial: File<D>, readable: bool, es: seq<Event<D>>)
    requires OneAtATime(boot, Started(boot, initial, readable), es)
    ensures InCopyOrder(After(boot, Started(boot, initial, readable), es).promos, es)
  {
    RunKeepsInv(boot, initial, readable, es);
    RunIsSequential(boot, Started(boot, initial, readable), es);
  }

  // ---------------------------------------------------------------- one snapshot_to call

  /** Which of the fallible calls succeed. */
  datatype Faults = Faults(lockedDown: bool, backup: bool, chmod: bool, rename: bool, cleanup: bool)

  /** The call as events; those behind a failure find their job already given up. */
  function Call<D>(id: nat, f: Faults): seq<Event<D>> {
    [Begin(id, f.lockedDown), Backup(id, f.backup), Chmod(id, f.chmod), Promote(id, f.rename), Clean(id, f.cleanup)]
  }

  predicate AllFine(f: Faults) {
    f.lockedDown && f.backup && f.chmod && f.rename
  }

  function Called<D>(boot: Boot<D>, s: Sys<D>, id: nat, f: Faults): Sys<D> {
    After(boot, s, Call(id, f))
  }

  lemma Snoc<D>(boot: Boot<D>, s: Sys<D>, es: seq<Event<D>>, e: Event<D>)
    ensures After(boot, s, es + [e]) == Step(boot, After(boot, s, es), e)
  {
    assert (es + [e])[..|es|] == es;
  }

  lemma CallUnrolled<D>(boot: Boot<D>, s: Sys<D>, id: nat, f: Faults)
    ensures var a := Step(boot, s, Begin(id, f.lockedDown));
            var b := Step(boot, a, Backup(id, f.backup));
            var c := Step(boot, b, Chmod(id, f.chmod));
            var d := Step(boot, c, Promote(id, f.rename));
            Called(boot, s, id, f) == Step(boot, d, Clean(id, f.cleanup))
  {
    var es := Call<D>(id, f);
    Snoc(boot, s, [], es[0]);
    Snoc(boot, s, [es[0]], es[1]);
    Snoc(boot, s, [es[0], es[1]], es[2]);
    Snoc(boot, s, [es[0], es[1], es[2]], es[3]);
    Snoc(boot, s, [es[0], es[1], es[2], es[3]], es[4]);
    assert [] + [es[0]] == [es[0]] && [es[0]] + [es[1]] == [es[0], es[1]];
    assert [es[0], es[1]] + [es[2]] == [es[0], es[1], es[2]];
    assert [es[0], es[1], es[2]] + [es[3]] == [es[0], es[1], es[2], es[3]];
    assert [es[0], es[1], es[2], es[3]] + [es[4]] == es;
  }

  function Latest<D>(s: Sys<D>): File<D>
    requires s.history != []
  {
    Whole(s.history[|s.history| - 1], |s.history| - 1)
  }

  /** What the private directory holds when the call is over, before cleanup. */
  function Leftover<D>(f: Faults, latest: File<D>): File<D> {
    if !f.lockedDown || AllFine(f) then Absent else if !f.backup then Torn else latest
  }

  lemma GivenUp<D>(boot: Boot<D>, a: Sys<D>, id: nat, f: Faults)
    requires At(a, id, Done)
    ensures Step(boot, a, Backup(id, f.backup)) == a.(clock := a.clock + 1)
    ensures Step(boot, a, Chmod(id, f.chmod)) == a.(clock := a.clock + 1)
    ensures Step(boot, a, Promote(id, f.rename)) == a.(clock := a.clock + 1)
  {
  }

  lemma Cleaned<D>(s: Sys<D>, t: Sys<D>, id: nat)
    requires id !in s.dirs && id !in s.jobs && id in t.dirs && id in t.jobs
    requires t.dirs == s.dirs[id := t.dirs[id]] && t.jobs == s.jobs[id := t.jobs[id]]
    ensures t.dirs - {id} == s.dirs && t.jobs - {id} == s.jobs
  {
  }

  predicate CallDoes<D(==)>(s: Sys<D>, t: Sys<D>, id: nat, f: Faults)
    requires s.history != []
  {
    && t.history == s.history && t.jobs == s.jobs
    && t.durable == (if id !in s.dirs && AllFine(f) then Latest(s) else s.durable)
    && t.dirs == (if id in s.dirs || f.cleanup then s.dirs else s.dirs[id := Leftover(f, Latest(s))])
  }

  lemma CallBlocked<D>(boot: Boot<D>, s: Sys<D>, id: nat, f: Faults)
    requires s.history != [] && id !in s.jobs && id in s.dirs
    ensures CallDoes(s, Called(boot, s, id, f), id, f)
  {
    CallUnrolled(boot, s, id, f);
  }

  lemma CallFailsEarly<D>(boot: Boot<D>, s: Sys<D>, id: nat, f: Faults)
    requires s.history != [] && id !in s.jobs && id !in s.dirs && !(f.lockedDown && f.backup)
    ensures CallDoes(s, Called(boot, s, id, f), id, f)
  {
    CallUnrolled(boot, s, id, f);
    var a := Step(boot, s, Begin(id, f.lockedDown));
    var b := Step(boot, a, Backup(id, f.backup));
    if !f.lockedDown {
      GivenUp(boot, a, id, f);
    }
    GivenUp(boot, b, id, f);
    GivenUp(boot, Step(boot, b, Chmod(id, f.chmod)), id, f);
    Cleaned(s, b, id);
  }

  lemma CallFailsLate<D>(boot: Boot<D>, s: Sys<D>, id: nat, f: Faults)
    requires s.history != [] && id !in s.jobs && id !in s.dirs && f.lockedDown && f.backup && !AllFine(f)
    ensures CallDoes(s, Called(boot, s, id, f), id, f)
  {
    CallUnrolled(boot, s, id, f);
    var c := Copy(boot, s, id);
    var d := Step(boot, c, Chmod(id, f.chmod));
    if !f.chmod {
      GivenUp(boot, d, id, f);
    }
    Cleaned(s, d, id);
    Cleaned(s, Step(boot, d, Promote(id, f.rename)), id);
  }

  /** The job once its backup is made. */
  lemma Copy<D>(boot: Boot<D>, s: Sys<D>, id: nat) returns (c: Sys<D>)
    requires s.history != [] && id !in s.jobs && id !in s.dirs
    ensures c == Step(boot, Step(boot, s, Begin(id, true)), Backup(id, true))
    ensures At(c, id, Copied) && c.dirs == s.dirs[id := Latest(s)] && c.jobs == s.jobs[id := c.jobs[id]]
    ensures c == s.(dirs := c.dirs, jobs := c.jobs, clock := s.clock + 2)
  {
    c := Step(boot, Step(boot, s, Begin(id, true)), Backup(id, true));
  }

  lemma CallRuns<D>(boot: Boot<D>, s: Sys<D>, id: nat, f: Faults)
    requires s.history != [] && id !in s.jobs && id !in s.dirs && AllFine(f)
    ensures CallDoes(s, Called(boot, s, id, f), id, f)
  {
    CallUnrolled(boot, s, id, f);
    var c := Copy(boot, s, id);
    var d := Step(boot, Step(boot, c, Chmod(id, true)), Promote(id, true));
    Cleaned(s, d, id);
  }

  /** A call with nothing interleaved: it succeeds exactly when its directory name is free and no
      step fails, and then the durable path has the current state; otherwise the path is untouched
      and only an unremovable private directory may stay behind. */
  lemma CallMeans<D>(boot: Boot<D>, s: Sys<D>, id: nat, f: Faults)
    requires s.history != [] && id !in s.jobs
    ensures CallDoes(s, Called(boot, s, id, f), id, f)
  {
    if id in s.dirs {
      CallBlocked(boot, s, id, f);
    } else if !(f.lockedDown && f.backup) {
      CallFailsEarly(boot, s, id, f);
    } else if !AllFine(f) {
      CallFailsLate(boot, s, id, f);
    } else {
      CallRuns(boot, s, id, f);
    }
  }

  lemma {:induction false} AfterAppend<D>(boot: Boot<D>, s: Sys<D>, es: seq<Event<D>>, fs: seq<Event<D>>)
    ensures After(boot, s, es + fs) == After(boot, After(boot, s, es), fs)
  {
    if fs == [] {
      assert es + fs == es;
    } else {
      var n := |fs| - 1;
      AfterAppend(boot, s, es, fs[..n]);
      Snoc(boot, s, es + fs[..n], fs[n]);
      assert es + fs[..n] + [fs[n]] == es + fs;
    }
  }

  lemma FourSteps<D>(boot: Boot<D>, s: Sys<D>, a: Event<D>, b: Event<D>, c: Event<D>, d: Event<D>)
    ensures After(boot, s, [a, b, c, d]) == Step(boot, Step(boot, Step(boot, Step(boot, s, a), b), c), d)
  {
    Snoc(boot, s, [], a);
    Snoc(boot, s, [a], b);
    Snoc(boot, s, [a, b], c);
    Snoc(boot, s, [a, b, c], d);
    assert [] + [a] == [a] && [a] + [b] == [a, b] && [a, b] + [c] == [a, b, c] && [a, b, c] + [d] == [a, b, c, d];
  }

  lemma ReadyToPromote<D>(boot: Boot<D>, s: Sys<D>, id: nat, d: D)
    requires s.history != [] && id !in s.jobs && id !in s.dirs
    ensures var t := After(boot, s, [Begin(id, true), Backup(id, true), Chmod(id, true), Write(d)]);
            && t.history == s.history + [d] && At(t, id, Locked)
            && t.dirs == s.dirs[id := Latest(s)] && t.jobs == s.jobs[id := t.jobs[id]]
  {
    FourSteps(boot, s, Begin(id, true), Backup(id, true), Chmod(id, true), Write(d));
    var copied := Copy(boot, s, id);
    var locked := Step(boot, copied, Chmod(id, true));
    assert locked.jobs == s.jobs[id := locked.jobs[id]];
  }

  /** Overlapping snapshots can take the durable path back: a periodic one that has made its copy,
      then a write and a complete final snapshot, then the periodic one's rename. The write was
      durable and is lost again. */
  lemma OverlapGoesBack<D>(boot: Boot<D>, s: Sys<D>, d: D, periodic: nat, final: nat)
    requires s.history != [] && s.jobs == map[] && s.dirs == map[] && periodic != final
    ensures var es := [Begin(periodic, true), Backup(periodic, true), Chmod(periodic, true), Write(d)]
                      + Call(final, Faults(true, true, true, true, true));
            && After(boot, s, es).durable == Whole(d, |s.history|)
            && After(boot, s, es + [Promote(periodic, true)]).durable == Latest(s)
            && Latest(s).taken < |s.history|
  {
    var start := [Begin(periodic, true), Backup(periodic, true), Chmod(periodic, true), Write(d)];
    var call := Call<D>(final, Faults(true, true, true, true, true));
    var t := After(boot, s, start);
    ReadyToPromote(boot, s, periodic, d);
    AfterAppend(boot, s, start, call);
    CallMeans(boot, t, final, Faults(true, true, true, true, true));
    Snoc(boot, s, start + call, Promote(periodic, true));
  }

  /** A snapshot survives a restart: what a later start adopts is the state at the time of the call
      when the call went through, and what it would have adopted anyway when it did not. */
  lemma SnapshotThenRestart<D>(boot: Boot<D>, s: Sys<D>, id: nat, f: Faults)
    requires s.history != [] && id !in s.jobs
    ensures Restored(boot, Called(boot, s, id, f).durable, true)
            == if id !in s.dirs && AllFine(f) then boot.upgrade(s.history[|s.history| - 1])
               else Restored(boot, s.durable, true)
  {
    CallMeans(boot, s, id, f);
  }

  class Host<D(==)> {
    var restored: bool
    var history: seq<D>
    var durable: File<D>
    var dirs: map<nat, File<D>>

    /** init_in_memory_db: the file is adopted exactly when it is whole and can be read. */
    constructor (boot: Boot<D>, initial: File<D>, readable: bool)
      ensures restored <==> initial.Whole? && readable
      ensures |history| == 1 && (restored ==> history[0] == boot.upgrade(initial.content))
      ensures !restored ==> history[0] == boot.seeded
      ensures View() == Started(boot, initial, readable)
    {
      restored := false;
      history := [boot.seeded];
      if initial.Whole? && readable {
        restored := true;
        history := [boot.upgrade(initial.content)];
      }
      durable, dirs := initial, map[];
    }

    ghost function View(): Sys<D>
      reads this
    {
      Sys(history, durable, dirs, map[], 0, [])
    }

    /** snapshot_to with nothing running beside it: early return on each failure, the private
        directory removed on every path once it exists. */
    method SnapshotTo(boot: Boot<D>, id: nat, f: Faults) returns (ok: bool)
      requires history != []
      modifies this
      ensures var s := Called(boot, old(View()), id, f);
              history == s.history && durable == s.durable && dirs == s.dirs
      ensures ok <==> id !in old(dirs) && AllFine(f)
    {
      CallMeans(boot, View(), id, f);
      if id in dirs {
        return false;
      }
      dirs := dirs[id := Absent];
      ok := Inside(id, f);
      if f.cleanup {
        dirs := dirs - {id};
      }
    }

    /** The part of the call that runs under the cleanup guard. */
    method Inside(id: nat, f: Faults) returns (ok: bool)
      requires history != [] && id in dirs && dirs[id] == Absent
      modifies this
      ensures history == old(history)
      ensures ok <==> AllFine(f)
      ensures durable == if ok then Latest(old(View())) else old(durable)
      ensures dirs == old(dirs)[id := Leftover(f, Latest(old(View())))]
    {
      if !f.lockedDown {
        return false;
      }
      if !f.backup {
        dirs := dirs[id := Torn];
        return false;
      }
      var copy := Whole(history[|history| - 1], |history| - 1);
      dirs := dirs[id := copy];
      if !f.chmod || !f.rename {
        return false;
      }
      durable := copy;
      dirs := dirs[id := Absent];
      return true;
    }
  }
}
