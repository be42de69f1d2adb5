/** The login rate limiter: sliding windows per username and per source address in one swept,
    bounded map, against a reference that remembers every attempt for ever. */
module RateLimiter {
  import opened Text
  import opened SlidingWindow
  import opened Sets

  const MaxKeys: nat := 16384
  const SubjectMax: nat := 64
  const Horizon: nat := 60
  const UserLimit: nat := 10
  const IpLimit: nat := 50

  /** Keys are length-bounded and the two name spaces never meet. */
  datatype Key = User(subject: string) | Ip(subject: string)

  function Spelled(k: Key): string {
    match k
    case User(subject) => "user:" + subject
    case Ip(subject) => "ip:" + subject
  }

  lemma SpelledApart(j: Key, k: Key)
    ensures Spelled(j) == Spelled(k) <==> j == k
  {
    assert Spelled(j)[0] == Spelled(k)[0] ==> (j.User? <==> k.User?);
    var skip := if j.User? then 5 else 3;
    assert Spelled(j)[skip..] == j.subject;
    if j.User? == k.User? {
      assert Spelled(k)[skip..] == k.subject;
    }
  }

  function Bounded(subject: string): string {
    if |subject| > SubjectMax then subject[..SubjectMax] else subject
  }

  function UserKey(username: string): Key {
    User(Bounded(username))
  }

  function IpKey(ip: string): Key {
    Ip(Bounded(ip))
  }

  predicate SameFirst64(s: string, t: string) {
    s == t || (|s| >= 64 && |t| >= 64 && s[..64] == t[..64])
  }

  /** Two usernames, and two addresses, are counted together exactly when they agree up to the
      64th character; a username is never counted as an address. */
  lemma CountedTogether(s: string, t: string)
    ensures Spelled(UserKey(s)) == Spelled(UserKey(t)) <==> SameFirst64(s, t)
    ensures Spelled(IpKey(s)) == Spelled(IpKey(t)) <==> SameFirst64(s, t)
    ensures Spelled(UserKey(s)) != Spelled(IpKey(t))
  {
    SpelledApart(UserKey(s), UserKey(t));
    SpelledApart(IpKey(s), IpKey(t));
    SpelledApart(UserKey(s), IpKey(t));
    if |s| == 64 < |t| {
      assert s[..64] == s;
    } else if |t| == 64 < |s| {
      assert t[..64] == t;
    }
  }

  function Limit(k: Key): nat {
    if k.User? then UserLimit else IpLimit
  }

  type Attempts = map<Key, seq<nat>>

  datatype Outcome = Admitted | Flooded | UserLimited | IpLimited

  // ---------------------------------------------------------------- windows

  function Window(m: Attempts, k: Key): seq<nat> {
    if k in m then m[k] else []
  }

  /** The sweep: every window is pruned and empty ones go. */
  function Swept(m: Attempts, now: nat): Attempts {
    map k | k in m && Live(m[k], now, Horizon) != [] :: Live(m[k], now, Horizon)
  }

  /** One bucket: prune, refuse at the limit, else record. */
  function Bucket(m: Attempts, k: Key, now: nat): (Attempts, bool) {
    var live := Live(Window(m, k), now, Horizon);
    if |live| >= Limit(k) then (m[k := live], false) else (m[k := live + [now]], true)
  }

  function WithoutEmpty(m: Attempts, k: Key): Attempts {
    if k in m && m[k] == [] then m - {k} else m
  }

  /** One login attempt's passage through the limiter. */
  function Passed(m: Attempts, now: nat, username: string, ip: Option<string>): (Attempts, Outcome) {
    var m1 := if |m| > MaxKeys then Swept(m, now) else m;
    if |m| > MaxKeys && |m1| > MaxKeys then (m1, Flooded)
    else
      var (m2, userOk) := Bucket(m1, UserKey(username), now);
      if !userOk then (m2, UserLimited)
      else if ip.None? then (m2, Admitted)
      else
        var (m3, ipOk) := Bucket(m2, IpKey(ip.value), now);
        if ipOk then (m3, Admitted) else (WithoutEmpty(m3, UserKey(username)), IpLimited)
  }

  class Limiter {
    var attempts: Attempts

    constructor ()
      ensures attempts == map[]
    {
      attempts := map[];
    }

    /** The entry of one key: prune, refuse at the limit, else record. */
    method TryBucket(k: Key, now: nat) returns (ok: bool)
      modifies this
      ensures (attempts, ok) == Bucket(old(attempts), k, now)
    {
      var live := PruneWindow(Window(attempts, k), now, Horizon);
      ok := |live| < Limit(k);
      if ok {
        live := live + [now];
      }
      attempts := attempts[k := live];
    }

    method DropIfEmpty(k: Key)
      modifies this
      ensures attempts == WithoutEmpty(old(attempts), k)
    {
      if k in attempts && attempts[k] == [] {
        attempts := attempts - {k};
      }
    }

    /** The limiter section of create_session. */
    method Attempt(now: nat, username: string, ip: Option<string>) returns (outcome: Outcome)
      modifies this
      ensures (attempts, outcome) == Passed(old(attempts), now, username, ip)
    {
      if |attempts| > MaxKeys {
        attempts := Swept(attempts, now);
        if |attempts| > MaxKeys {
          return Flooded;
        }
      }
      var ok := TryBucket(UserKey(username), now);
      if !ok {
        return UserLimited;
      }
      if ip.Some? {
        ok := TryBucket(IpKey(ip.value), now);
        if !ok {
          DropIfEmpty(UserKey(username));
          return IpLimited;
        }
      }
      return Admitted;
    }
  }

  // ---------------------------------------------------------------- runs

  datatype Event = Event(now: nat, username: string, ip: Option<string>)

  predicate ClockForward(es: seq<Event>) {
    forall i, j :: 0 <= i < j < |es| ==> es[i].now <= es[j].now
  }

  function Last(es: seq<Event>): Event
    requires es != []
  {
    es[|es| - 1]
  }

  function Front(es: seq<Event>): seq<Event>
    requires es != []
  {
    es[..|es| - 1]
  }

  function State(es: seq<Event>): Attempts {
    if es == [] then map[] else Passed(State(Front(es)), Last(es).now, Last(es).username, Last(es).ip).0
  }

  function Result(es: seq<Event>): Outcome
    requires es != []
  {
    Passed(State(Front(es)), Last(es).now, Last(es).username, Last(es).ip).1
  }

  // ---------------------------------------------------------------- the map stays small

  predicate NoEmptyWindow(m: Attempts) {
    forall k :: k in m ==> m[k] != []
  }

  lemma BucketGrowsByOne(m: Attempts, k: Key, now: nat)
    requires NoEmptyWindow(m)
    ensures NoEmptyWindow(Bucket(m, k, now).0) && |Bucket(m, k, now).0| <= |m| + 1
  {
    var n := Bucket(m, k, now).0;
    assert n.Keys == m.Keys + {k};
    assert |n.Keys| <= |m.Keys| + 1;
  }

  lemma SweepShrinks(m: Attempts, now: nat)
    ensures |Swept(m, now)| <= |m| && NoEmptyWindow(Swept(m, now))
  {
    assert m.Keys == Swept(m, now).Keys + (m.Keys - Swept(m, now).Keys);
  }

  /** One attempt leaves no empty window (so the eviction after an address refusal never finds
      one) and adds at most two keys to a map at the cap. */
  lemma PassedKeepsBound(m: Attempts, now: nat, username: string, ip: Option<string>)
    requires NoEmptyWindow(m) && |m| <= MaxKeys + 2
    ensures var after := Passed(m, now, username, ip).0; NoEmptyWindow(after) && |after| <= MaxKeys + 2
  {
    SweepShrinks(m, now);
    var m1 := if |m| > MaxKeys then Swept(m, now) else m;
    if |m1| <= MaxKeys {
      BucketGrowsByOne(m1, UserKey(username), now);
      if ip.Some? {
        BucketGrowsByOne(Bucket(m1, UserKey(username), now).0, IpKey(ip.value), now);
      }
    }
  }

  /** In every run no stored window is empty and the map never holds more than two keys over
      the cap. */
  lemma {:induction false} MapStaysBounded(es: seq<Event>)
    ensures NoEmptyWindow(State(es)) && |State(es)| <= 16384 + 2
  {
    if es != [] {
      MapStaysBounded(Front(es));
      PassedKeepsBound(State(Front(es)), Last(es).now, Last(es).username, Last(es).ip);
    }
  }

  // ---------------------------------------------------------------- the reference

  /** All recorded attempts per key, never swept or pruned. */
  type Ledger = Key -> seq<nat>

  function Record(h: Ledger, k: Key, now: nat): Ledger {
    (j: Key) => if j == k then h(j) + [now] else h(j)
  }

  /** The reference decision: count the attempts of the last minute in the full ledger. */
  function ReferenceBucket(h: Ledger, k: Key, now: nat): (Ledger, bool) {
    if |Live(h(k), now, Horizon)| >= Limit(k) then (h, false) else (Record(h, k, now), true)
  }

  function Reference(h: Ledger, e: Event): (Ledger, Outcome) {
    var (h1, userOk) := ReferenceBucket(h, UserKey(e.username), e.now);
    if !userOk then (h, UserLimited)
    else if e.ip.None? then (h1, Admitted)
    else
      var (h2, ipOk) := ReferenceBucket(h1, IpKey(e.ip.value), e.now);
      (h2, if ipOk then Admitted else IpLimited)
  }

  /** The reference fed with every attempt that was not refused for flooding. */
  function Book(es: seq<Event>): Ledger {
    if es == [] then (k: Key) => []
    else if Result(es) == Flooded then Book(Front(es))
    else Reference(Book(Front(es)), Last(es)).0
  }

  /** From `now` on, the swept map and the ledger show the same live attempts for every key. */
  ghost predicate Agree(m: Attempts, h: Ledger, now: nat) {
    forall k, later :: now <= later ==> Live(Window(m, k), later, Horizon) == Live(h(k), later, Horizon)
  }

  lemma SweepAgrees(m: Attempts, h: Ledger, then_: nat, now: nat)
    requires Agree(m, h, then_) && then_ <= now
    ensures Agree(Swept(m, now), h, now)
  {
    forall k, later | now <= later
      ensures Live(Window(Swept(m, now), k), later, Horizon) == Live(h(k), later, Horizon)
    {
      LiveLater(Window(m, k), now, later, Horizon);
    }
  }

  lemma PrunedOrRecorded(w: seq<nat>, now: nat, later: nat)
    requires now <= later
    ensures Live(Live(w, now, Horizon), later, Horizon) == Live(w, later, Horizon)
    ensures Live(Live(w, now, Horizon) + [now], later, Horizon) == Live(w + [now], later, Horizon)
  {
    LiveLater(w, now, later, Horizon);
    LiveAppend(Live(w, now, Horizon), now, later, Horizon);
    LiveAppend(w, now, later, Horizon);
  }

  lemma BucketAgrees(m: Attempts, h: Ledger, k: Key, now: nat)
    requires Agree(m, h, now)
    ensures Bucket(m, k, now).1 == ReferenceBucket(h, k, now).1
    ensures Agree(Bucket(m, k, now).0, ReferenceBucket(h, k, now).0, now)
  {
    var (m1, ok) := Bucket(m, k, now);
    var h1 := ReferenceBucket(h, k, now).0;
    assert ok <==> |Live(h(k), now, Horizon)| < Limit(k);
    forall j, later | now <= later ensures Live(Window(m1, j), later, Horizon) == Live(h1(j), later, Horizon) {
      assert Live(Window(m, j), later, Horizon) == Live(h(j), later, Horizon);
      if j == k {
        PrunedOrRecorded(Window(m, k), now, later);
        LiveAppend(Window(m, k), now, later, Horizon);
        LiveAppend(h(k), now, later, Horizon);
      }
    }
  }

  lemma AgreeLater(m: Attempts, h: Ledger, then_: nat, now: nat)
    requires Agree(m, h, then_) && then_ <= now
    ensures Agree(m, h, now)
  {
  }

  lemma DropAgrees(m: Attempts, h: Ledger, k: Key, now: nat)
    requires Agree(m, h, now)
    ensures Agree(WithoutEmpty(m, k), h, now)
  {
    assert forall j :: Window(WithoutEmpty(m, k), j) == Window(m, j);
  }

  lemma PassedAgrees(m: Attempts, h: Ledger, e: Event)
    requires Agree(m, h, e.now)
    requires Passed(m, e.now, e.username, e.ip).1 != Flooded
    ensures Passed(m, e.now, e.username, e.ip).1 == Reference(h, e).1
    ensures Agree(Passed(m, e.now, e.username, e.ip).0, Reference(h, e).0, e.now)
  {
    SweepAgrees(m, h, e.now, e.now);
    var m1 := if |m| > MaxKeys then Swept(m, e.now) else m;
    var user := UserKey(e.username);
    BucketAgrees(m1, h, user, e.now);
    if e.ip.Some? {
      var m2, h1 := Bucket(m1, user, e.now).0, ReferenceBucket(h, user, e.now).0;
      BucketAgrees(m2, h1, IpKey(e.ip.value), e.now);
      DropAgrees(Bucket(m2, IpKey(e.ip.value), e.now).0, ReferenceBucket(h1, IpKey(e.ip.value), e.now).0, user, e.now);
    }
  }

  function LastTime(es: seq<Event>): nat {
    if es == [] then 0 else Last(es).now
  }

  lemma {:induction false} BookAgrees(es: seq<Event>)
    requires ClockForward(es)
    ensures Agree(State(es), Book(es), LastTime(es))
  {
    if es == [] {
      assert forall k: Key :: Window(map[], k) == [];
    } else {
      var front, e := Front(es), Last(es);
      BookAgrees(front);
      AgreeLater(State(front), Book(front), LastTime(front), e.now);
      if Result(es) == Flooded {
        SweepAgrees(State(front), Book(front), e.now, e.now);
      } else {
        PassedAgrees(State(front), Book(front), e);
      }
    }
  }

  /** Sweeping is unobservable: with a clock that never steps back, every decision that is not
      the fail-closed one is the decision of the unswept reference. */
  lemma SweepChangesNoDecision(es: seq<Event>)
    requires ClockForward(es) && es != [] && Result(es) != Flooded
    ensures Result(es) == Reference(Book(Front(es)), Last(es)).1
  {
    BookAgrees(Front(es));
    AgreeLater(State(Front(es)), Book(Front(es)), LastTime(Front(es)), Last(es).now);
    PassedAgrees(State(Front(es)), Book(Front(es)), Last(es));
  }

  /** More than 16384 keys have an attempt in the last minute. */
  ghost predicate UnderFlood(h: Ledger, now: nat) {
    exists keys: set<Key> :: |keys| > 16384 && AllRecent(h, keys, now)
  }

  predicate AllRecent(h: Ledger, keys: set<Key>, now: nat) {
    forall k :: k in keys ==> Recent(h(k), now, 60) > 0
  }

  lemma SweptKeysAreLive(m: Attempts, h: Ledger, now: nat, k: Key)
    requires Agree(m, h, now)
    ensures k in Swept(m, now) <==> Recent(h(k), now, 60) > 0
  {
    LiveAreRecent(h(k), now, Horizon);
    assert Live(Window(m, k), now, Horizon) == Live(h(k), now, Horizon);
  }

  lemma FloodMeansManyLive(m: Attempts, h: Ledger, now: nat)
    requires Agree(m, h, now) && |Swept(m, now)| > MaxKeys
    ensures UnderFlood(h, now)
  {
    var swept := Swept(m, now).Keys;
    forall k | k in swept ensures Recent(h(k), now, 60) > 0 {
      SweptKeysAreLive(m, h, now, k);
    }
    assert AllRecent(h, swept, now);
    assert |swept| == |Swept(m, now)|;
  }

  lemma ManyLiveMeansFlood(m: Attempts, h: Ledger, now: nat)
    requires Agree(m, h, now) && UnderFlood(h, now)
    ensures |Swept(m, now)| > MaxKeys
  {
    var swept := Swept(m, now).Keys;
    var keys: set<Key> :| |keys| > 16384 && AllRecent(h, keys, now);
    forall k | k in keys ensures k in swept {
      SweptKeysAreLive(m, h, now, k);
    }
    SubsetSize(keys, swept);
    assert |swept| == |Swept(m, now)|;
  }

  lemma FloodedIffSweepLeavesMany(m: Attempts, now: nat, username: string, ip: Option<string>)
    ensures Passed(m, now, username, ip).1 == Flooded <==> |Swept(m, now)| > MaxKeys
  {
    SweepShrinks(m, now);
  }

  lemma FloodedBySweep(m: Attempts, h: Ledger, now: nat)
    requires Agree(m, h, now)
    ensures |Swept(m, now)| > MaxKeys <==> UnderFlood(h, now)
  {
    if |Swept(m, now)| > MaxKeys {
      FloodMeansManyLive(m, h, now);
    }
    if UnderFlood(h, now) {
      ManyLiveMeansFlood(m, h, now);
    }
  }

  /** The fail-closed refusal comes exactly when the reference is under a flood, however many
      stale keys the map holds. */
  lemma FloodedIffUnderFlood(es: seq<Event>)
    requires ClockForward(es) && es != []
    ensures Result(es) == Flooded <==> UnderFlood(Book(Front(es)), Last(es).now)
  {
    var m, h, e := State(Front(es)), Book(Front(es)), Last(es);
    BookAgrees(Front(es));
    AgreeLater(m, h, LastTime(Front(es)), e.now);
    FloodedBySweep(m, h, e.now);
    FloodedIffSweepLeavesMany(m, e.now, e.username, e.ip);
  }

  // ---------------------------------------------------------------- sliding-window safety

  ghost predicate WithinLimits(h: Ledger) {
    forall k: Key :: WithinLimit(h(k), Limit(k), Horizon)
  }

  lemma RecordWithinLimits(h: Ledger, k: Key, now: nat)
    requires WithinLimits(h) && |Live(h(k), now, Horizon)| < Limit(k)
    ensures WithinLimits(Record(h, k, now))
  {
    RecordKeepsLimit(h(k), now, Limit(k), Horizon);
  }

  lemma {:induction false} BookWithinLimits(es: seq<Event>)
    ensures WithinLimits(Book(es))
  {
    if es != [] {
      var h, e := Book(Front(es)), Last(es);
      BookWithinLimits(Front(es));
      if |Live(h(UserKey(e.username)), e.now, Horizon)| < UserLimit {
        RecordWithinLimits(h, UserKey(e.username), e.now);
        var h1 := Record(h, UserKey(e.username), e.now);
        if e.ip.Some? && |Live(h1(IpKey(e.ip.value)), e.now, Horizon)| < IpLimit {
          RecordWithinLimits(h1, IpKey(e.ip.value), e.now);
        }
      }
    }
  }

  predicate Touches(e: Event, k: Key) {
    k == UserKey(e.username) || (e.ip.Some? && k == IpKey(e.ip.value))
  }

  /** Attempts on key `k` let through with a <= now < a + 60. */
  function Admissions(es: seq<Event>, k: Key, a: nat): nat {
    if es == [] then 0
    else
      Admissions(Front(es), k, a) +
      if Result(es) == Admitted && Touches(Last(es), k) && a <= Last(es).now < a + 60 then 1 else 0
  }

  /** A decision either leaves a key's ledger alone or appends to it, and an admission appends. */
  lemma LedgerStep(h: Ledger, e: Event, k: Key)
    ensures var after := Reference(h, e).0(k);
            (after == h(k) || after == h(k) + [e.now]) &&
            (Reference(h, e).1 == Admitted && Touches(e, k) ==> after == h(k) + [e.now])
  {
  }

  lemma {:induction false} AdmissionsAreRecorded(es: seq<Event>, k: Key, a: nat)
    requires ClockForward(es)
    ensures Admissions(es, k, a) <= CountIn(Book(es)(k), a, 60)
  {
    if es != [] {
      AdmissionsAreRecorded(Front(es), k, a);
      if Result(es) != Flooded {
        SweepChangesNoDecision(es);
        LedgerStep(Book(Front(es)), Last(es), k);
        CountInAppend(Book(Front(es))(k), Last(es).now, a, 60);
      }
    }
  }

  /** Sliding-window safety: in any run and any 60 seconds no more than ten attempts are let
      through for a username, and no more than fifty for an address. */
  lemma NoWindowAdmitsMore(es: seq<Event>, username: string, ip: string, a: nat)
    requires ClockForward(es)
    ensures Admissions(es, UserKey(username), a) <= 10
    ensures Admissions(es, IpKey(ip), a) <= 50
  {
    AdmissionsAreRecorded(es, UserKey(username), a);
    AdmissionsAreRecorded(es, IpKey(ip), a);
    BookWithinLimits(es);
  }

  // ---------------------------------------------------------------- every decision, by counting

  /** Times of the attempts that count against a key: a username's unless it was itself at its
      limit, an address's when admitted, and neither under a flood. */
  function Recorded(es: seq<Event>, k: Key): seq<nat> {
    if es == [] then []
    else
      var e := Last(es);
      var counts := match Result(es)
                    case Admitted => Touches(e, k)
                    case IpLimited => k == UserKey(e.username)
                    case _ => false;
      Recorded(Front(es), k) + if counts then [e.now] else []
  }

  lemma {:induction false} BookIsRecorded(es: seq<Event>, k: Key)
    requires ClockForward(es)
    ensures Book(es)(k) == Recorded(es, k)
  {
    if es != [] {
      BookIsRecorded(Front(es), k);
      if Result(es) != Flooded {
        SweepChangesNoDecision(es);
        ReferenceRecords(Book(Front(es)), Last(es), k);
      }
    }
  }

  lemma ReferenceRecords(h: Ledger, e: Event, k: Key)
    ensures var (after, result) := Reference(h, e);
            after(k) == h(k) + if (result.Admitted? && Touches(e, k)) || (result.IpLimited? && k == UserKey(e.username))
                               then [e.now] else []
  {
  }

  /** The decision on every attempt of every run, by the attempts on record in its last 60 seconds. */
  lemma DecisionByCounts(es: seq<Event>)
    requires ClockForward(es) && es != []
    ensures var (e, before) := (Last(es), Front(es));
            var flood := UnderFlood(Book(before), e.now);
            var user := Recent(Recorded(before, UserKey(e.username)), e.now, 60);
            var address := if e.ip.Some? then Recent(Recorded(before, IpKey(e.ip.value)), e.now, 60) else 0;
            && (Result(es) == Flooded <==> flood)
            && (Result(es) == UserLimited <==> !flood && user >= 10)
            && (Result(es) == IpLimited <==> !flood && user < 10 && address >= 50)
            && (Result(es) == Admitted <==> !flood && user < 10 && address < 50)
  {
    var e, before := Last(es), Front(es);
    FloodedIffUnderFlood(es);
    BookIsRecorded(before, UserKey(e.username));
    LiveAreRecent(Recorded(before, UserKey(e.username)), e.now, 60);
    if e.ip.Some? {
      BookIsRecorded(before, IpKey(e.ip.value));
      LiveAreRecent(Recorded(before, IpKey(e.ip.value)), e.now, 60);
    }
    if Result(es) != Flooded {
      SweepChangesNoDecision(es);
    }
  }
}
