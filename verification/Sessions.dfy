/** The in-memory session store: lazy expiry at every request against the background sweep. */
module Sessions {
  import opened Text

  const U64: nat := 0x1_0000_0000_0000_0000
  const I64Min: int := -0x8000_0000_0000_0000
  const I64Max: int := 0x7fff_ffff_ffff_ffff

  type Seconds = n: nat | n < U64
  type Timeout = n: int | I64Min <= n <= I64Max witness 0

  datatype Session = Session(userId: int, createdAt: Seconds)
  type Store = map<string, Session>

  datatype Outcome = NotAuthenticated | SessionExpired | UnknownUser | Granted(userId: int)

  /** timeout_secs as u64: a negative timeout is a huge one. */
  function Effective(timeout: Timeout): Seconds {
    if timeout < 0 then timeout + U64 else timeout
  }

  predicate IsExpired(s: Session, now: Seconds, timeout: Timeout) {
    (if now < s.createdAt then 0 else now - s.createdAt) > Effective(timeout)
  }

  function Pruned(store: Store, now: Seconds, timeout: Timeout): Store {
    map t | t in store && !IsExpired(store[t], now, timeout) :: store[t]
  }

  function Required(store: Store, cookie: Option<string>, now: Seconds, timeout: Timeout, users: set<int>): Outcome {
    if cookie.None? then NotAuthenticated
    else if cookie.value !in store || IsExpired(store[cookie.value], now, timeout) then SessionExpired
    else if store[cookie.value].userId in users then Granted(store[cookie.value].userId)
    else UnknownUser
  }

  /** What a request is answered, in the numbers of the settings: a token is honoured until its
      session is older than the timeout, where a negative timeout counts as that many seconds
      short of 2^64. */
  lemma GrantedIff(store: Store, token: string, now: Seconds, timeout: Timeout, users: set<int>)
    ensures var honoured := token in store && now <= store[token].createdAt + Allowance(timeout);
            Required(store, Some(token), now, timeout, users) ==
              if !honoured then SessionExpired
              else if store[token].userId in users then Granted(store[token].userId)
              else UnknownUser
    ensures Required(store, None, now, timeout, users) == NotAuthenticated
  {
  }

  /** Seconds a session may be old. */
  function Allowance(timeout: int): int {
    if timeout >= 0 then timeout else 0x1_0000_0000_0000_0000 - (-timeout)
  }

  predicate SameEntry(before: Store, after: Store, t: string) {
    (t in before <==> t in after) && (t in before ==> before[t] == after[t])
  }

  class AppState {
    var sessions: Store

    constructor ()
      ensures sessions == map[]
    {
      sessions := map[];
    }

    /** The end of a login: the new token is honoured for as long as the timeout in force at each
        request allows, and nobody else's is touched. */
    method StartSession(token: string, userId: int, now: Seconds)
      modifies this
      ensures sessions == After(old(sessions), Login(token, userId, now))
      ensures forall later: Seconds, timeout: Timeout, users: set<int> ::
                now <= later && later - now <= Allowance(timeout) && userId in users ==>
                  Required(sessions, Some(token), later, timeout, users) == Granted(userId)
      ensures forall t :: t != token ==> SameEntry(old(sessions), sessions, t)
    {
      sessions := sessions[token := Session(userId, now)];
    }

    /** Logging out with a cookie: its token is never honoured again until it is issued anew, and
        without one nothing happens. */
    method DeleteSession(cookie: Option<string>)
      modifies this
      ensures sessions == if cookie.Some? then After(old(sessions), Logout(cookie.value)) else old(sessions)
      ensures cookie.Some? ==>
                forall now: Seconds, timeout: Timeout, users: set<int> ::
                  Required(sessions, cookie, now, timeout, users) == SessionExpired
      ensures forall t :: cookie != Some(t) ==> SameEntry(old(sessions), sessions, t)
    {
      if cookie.Some? {
        sessions := sessions - {cookie.value};
      }
    }

    method PruneExpiredSessions(now: Seconds, timeout: Timeout)
      modifies this
      ensures sessions == Pruned(old(sessions), now, timeout)
    {
      var unseen := sessions.Keys;
      while unseen != {}
        invariant unseen <= old(sessions).Keys
        invariant sessions == map t | t in old(sessions)
                                      && (t in unseen || !IsExpired(old(sessions)[t], now, timeout)) :: old(sessions)[t]
        decreases unseen
      {
        var t :| t in unseen;
        if IsExpired(sessions[t], now, timeout) {
          sessions := sessions - {t};
        }
        unseen := unseen - {t};
      }
    }

    /** require_auth: the checks in their order. */
    method RequireAuth(cookie: Option<string>, now: Seconds, timeout: Timeout, users: set<int>) returns (r: Outcome)
      ensures r == Required(sessions, cookie, now, timeout, users)
    {
      if cookie.None? {
        return NotAuthenticated;
      }
      if cookie.value !in sessions {
        return SessionExpired;
      }
      var session := sessions[cookie.value];
      if IsExpired(session, now, timeout) {
        return SessionExpired;
      }
      return if session.userId in users then Granted(session.userId) else UnknownUser;
    }
  }

  // ---------------------------------------------------------------- runs

  datatype Event =
    | Login(token: string, userId: int, now: Seconds)
    | Logout(token: string)
    | Request(cookie: Option<string>, now: Seconds, timeout: Timeout, users: set<int>)
    | Prune(now: Seconds, timeout: Timeout)

  function After(store: Store, e: Event): Store {
    match e
    case Login(token, userId, now) => store[token := Session(userId, now)]
    case Logout(token) => store - {token}
    case Request(_, _, _, _) => store
    case Prune(now, timeout) => Pruned(store, now, timeout)
  }

  function Answer(store: Store, e: Event): seq<Outcome> {
    if e.Request? then [Required(store, e.cookie, e.now, e.timeout, e.users)] else []
  }

  /** The answers to all requests of a run, in order. */
  function Answers(store: Store, es: seq<Event>): seq<Outcome>
    decreases es
  {
    if es == [] then [] else Answer(store, es[0]) + Answers(After(store, es[0]), es[1..])
  }

  function WithoutPrunes(es: seq<Event>): seq<Event> {
    if es == [] then []
    else if es[0].Prune? then WithoutPrunes(es[1..])
    else [es[0]] + WithoutPrunes(es[1..])
  }

  /** The clock never steps back and the effective timeout never grows. */
  predicate Paced(es: seq<Event>, clock: Seconds, cap: Seconds) {
    es == [] ||
    match es[0]
    case Login(_, _, now) => clock <= now && Paced(es[1..], now, cap)
    case Logout(_) => Paced(es[1..], clock, cap)
    case Request(_, now, timeout, _) =>
      clock <= now && Effective(timeout) <= cap && Paced(es[1..], now, Effective(timeout))
    case Prune(now, timeout) => clock <= now && Effective(timeout) <= cap && Paced(es[1..], now, Effective(timeout))
  }

  // ---------------------------------------------------------------- pruning is unobservable

  /** The swept store misses only sessions that are expired, and stay so, for everyone. */
  ghost predicate MissesOnlyExpired(swept: Store, full: Store, clock: Seconds, cap: Seconds) {
    && (forall t :: t in swept ==> t in full && swept[t] == full[t])
    && (forall t :: t in full && t !in swept ==> full[t].createdAt + cap < clock)
  }

  lemma PruneMisses(swept: Store, full: Store, clock: Seconds, cap: Seconds, now: Seconds, timeout: Timeout)
    requires MissesOnlyExpired(swept, full, clock, cap) && clock <= now && Effective(timeout) <= cap
    ensures MissesOnlyExpired(Pruned(swept, now, timeout), full, now, Effective(timeout))
  {
  }

  lemma SameAnswer(swept: Store, full: Store, clock: Seconds, cap: Seconds, e: Event)
    requires MissesOnlyExpired(swept, full, clock, cap) && e.Request?
    requires clock <= e.now && Effective(e.timeout) <= cap
    ensures Answer(swept, e) == Answer(full, e)
    ensures MissesOnlyExpired(swept, full, e.now, Effective(e.timeout))
  {
  }

  lemma {:induction false} SweptRunAnswersAlike(swept: Store, full: Store, clock: Seconds, cap: Seconds, es: seq<Event>)
    requires Paced(es, clock, cap) && MissesOnlyExpired(swept, full, clock, cap)
    ensures Answers(swept, es) == Answers(full, WithoutPrunes(es))
    decreases es
  {
    if es != [] {
      var e, rest := es[0], es[1..];
      match e
      case Prune(now, timeout) =>
        PruneMisses(swept, full, clock, cap, now, timeout);
        SweptRunAnswersAlike(After(swept, e), full, now, Effective(timeout), rest);
      case Request(_, now, timeout, _) =>
        SameAnswer(swept, full, clock, cap, e);
        SweptRunAnswersAlike(swept, full, now, Effective(timeout), rest);
        AnswersCons(full, e, WithoutPrunes(rest));
      case Login(_, _, now) =>
        SweptRunAnswersAlike(After(swept, e), After(full, e), now, cap, rest);
        AnswersCons(full, e, WithoutPrunes(rest));
      case Logout(_) =>
        SweptRunAnswersAlike(After(swept, e), After(full, e), clock, cap, rest);
        AnswersCons(full, e, WithoutPrunes(rest));
    }
  }

  lemma AnswersCons(store: Store, e: Event, es: seq<Event>)
    ensures Answers(store, [e] + es) == Answer(store, e) + Answers(After(store, e), es)
  {
    assert ([e] + es)[1..] == es;
  }

  /** Two runs that differ only in where and how often they prune answer every request alike. */
  lemma PruningIsUnobservable(es: seq<Event>, fs: seq<Event>)
    requires Paced(es, 0, U64 - 1) && Paced(fs, 0, U64 - 1) && WithoutPrunes(es) == WithoutPrunes(fs)
    ensures Answers(map[], es) == Answers(map[], fs)
  {
    SweptRunAnswersAlike(map[], map[], 0, U64 - 1, es);
    SweptRunAnswersAlike(map[], map[], 0, U64 - 1, fs);
  }

  /** One prune shows in one later request exactly when it dropped the request's session and the
      timeout then in force would still have honoured it. */
  lemma PruneShowsIff(store: Store, cookie: Option<string>, users: set<int>,
                      now: Seconds, timeout: Timeout, later: Seconds, laterTimeout: Timeout)
    ensures Required(Pruned(store, now, timeout), cookie, later, laterTimeout, users)
              != Required(store, cookie, later, laterTimeout, users)
            <==> (cookie.Some? && cookie.value in store
                  && IsExpired(store[cookie.value], now, timeout)
                  && !IsExpired(store[cookie.value], later, laterTimeout))
  {
  }

  ghost predicate SweepUnseen(store: Store, cookie: Option<string>, users: set<int>,
                              now: Seconds, a: Timeout, later: Seconds, b: Timeout) {
    now <= later ==>
      Required(Pruned(store, now, a), cookie, later, b, users) == Required(store, cookie, later, b, users)
  }

  /** A sweep under timeout a is unobservable to every later request under timeout b, for every
      store and forward clock, exactly when b is no larger than a as an unsigned number. */
  lemma SweepUnseenIff(a: Timeout, b: Timeout)
    ensures (forall store: Store, cookie: Option<string>, users: set<int>, now: Seconds, later: Seconds ::
               SweepUnseen(store, cookie, users, now, a, later, b))
            <==> (0 <= b <= a) || (a < 0 && (b >= 0 || b <= a))
  {
    if Effective(b) <= Effective(a) {
      forall store: Store, cookie: Option<string>, users: set<int>, now: Seconds, later: Seconds
        ensures SweepUnseen(store, cookie, users, now, a, later, b)
      {
        PruneShowsIff(store, cookie, users, now, a, later, b);
      }
    } else {
      var store: Store := map["t" := Session(1, 0)];
      var now := Effective(a) + 1;
      PruneShowsIff(store, Some("t"), {1}, now, a, now, b);
      assert !SweepUnseen(store, Some("t"), {1}, now, a, now, b);
    }
  }

  /** Every effective raise, to a larger or to a negative timeout, lets a sweep show: one run with
      it, one without. */
  lemma RaisedTimeoutShows(a: Timeout, b: Timeout)
    requires Effective(a) < Effective(b)
    ensures var login := Login("t", 1, 0);
            var now := Effective(a) + 1;
            var request := Request(Some("t"), now, b, {1});
            && Answers(map[], [login, request]) == [Granted(1)]
            && Answers(map[], [login, Prune(now, a), request]) == [SessionExpired]
  {
    var login, now := Login("t", 1, 0), Effective(a) + 1;
    var request, prune := Request(Some("t"), now, b, {1}), Prune(now, a);
    var store: Store := map["t" := Session(1, 0)];
    AnswersCons(map[], login, [request]);
    AnswersCons(store, request, []);
    AnswersCons(map[], login, [prune, request]);
    AnswersCons(store, prune, [request]);
    AnswersCons(Pruned(store, now, a), request, []);
    assert [login] + [request] == [login, request] && [request] + [] == [request];
    assert [login] + [prune, request] == [login, prune, request] && [prune] + [request] == [prune, request];
  }

  /** Right after a sweep nothing expired is left, so the store holds only honoured sessions. */
  lemma SweepLeavesOnlyLive(store: Store, now: Seconds, timeout: Timeout, token: string)
    ensures token in Pruned(store, now, timeout)
            <==> token in store && Required(store, Some(token), now, timeout, {store[token].userId}).Granted?
  {
  }
}
