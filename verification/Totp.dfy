/** Two-factor codes: HOTP truncation, the skew-1 match, the per-user attempt limiter and the
    single-use watermark, with logins as two database sections that may interleave. */
module Totp {
  import opened Text
  import opened SlidingWindow

  const Period: nat := 30
  const TotpLimit: nat := 5
  const TotpHorizon: nat := 300

  type Digest = d: seq<nat> | |d| == 20 && forall i :: 0 <= i < |d| ==> d[i] < 256 witness seq(20, _ => 0)
  type Secret = seq<bv8>
  type Code = seq<bv8>

  /** HMAC-SHA1 of a counter under a secret. */
  type Mac = (Secret, nat) -> Digest

  // ---------------------------------------------------------------- HOTP

  /** Dynamic truncation, section 5.3 of RFC 4226: 31 bits at the offset in the last nibble. */
  function Truncated(hs: Digest): (bin: nat)
    ensures bin < 0x8000_0000
  {
    var o := hs[19] % 16;
    assert hs[o] < 256 && hs[o + 1] < 256 && hs[o + 2] < 256 && hs[o + 3] < 256;
    (hs[o] % 128) * 0x100_0000 + hs[o + 1] * 0x1_0000 + hs[o + 2] * 0x100 + hs[o + 3]
  }

  const DigitBytes: seq<bv8> := [48, 49, 50, 51, 52, 53, 54, 55, 56, 57]

  predicate IsDigitByte(b: bv8) {
    48 <= b <= 57
  }

  /** The low `width` decimal digits of n, zero-padded. */
  function Padded(n: nat, width: nat): (code: Code)
    ensures |code| == width && forall i :: 0 <= i < width ==> IsDigitByte(code[i])
  {
    if width == 0 then [] else Padded(n / 10, width - 1) + [DigitBytes[n % 10]]
  }

  function Hotp(mac: Mac, secret: Secret, counter: nat): Code {
    Padded(Truncated(mac(secret, counter)) % 1_000_000, 6)
  }

  function Pow10(k: nat): nat {
    if k == 0 then 1 else 10 * Pow10(k - 1)
  }

  /** Padding loses nothing below 10^width: equal codes mean equal truncated values. */
  lemma {:induction false} PaddedIsInjective(m: nat, n: nat, width: nat)
    requires m < Pow10(width) && n < Pow10(width)
    ensures Padded(m, width) == Padded(n, width) <==> m == n
  {
    if width > 0 && Padded(m, width) == Padded(n, width) {
      var k := width - 1;
      assert Padded(m, width)[..k] == Padded(m / 10, k) && Padded(n, width)[..k] == Padded(n / 10, k);
      assert Padded(m, width)[k] == DigitBytes[m % 10] && Padded(n, width)[k] == DigitBytes[n % 10];
      PaddedIsInjective(m / 10, n / 10, k);
      assert m % 10 == n % 10;
    }
  }

  /** Two counters share a code exactly when their truncated values agree modulo a million. */
  lemma HotpCollides(mac: Mac, secret: Secret, c: nat, d: nat)
    ensures Hotp(mac, secret, c) == Hotp(mac, secret, d)
            <==> Truncated(mac(secret, c)) % 1_000_000 == Truncated(mac(secret, d)) % 1_000_000
  {
    assert Pow10(6) == 1_000_000;
    PaddedIsInjective(Truncated(mac(secret, c)) % 1_000_000, Truncated(mac(secret, d)) % 1_000_000, 6);
  }

  /** The bytes of the truncated value, most significant first: those at the offset that the low
      nibble of the last byte names, without the top bit of the first. */
  lemma TruncatedBytes(hs: Digest, o: nat)
    requires o == hs[19] % 16
    ensures Truncated(hs) / 0x100_0000 == hs[o] % 128
    ensures Truncated(hs) / 0x1_0000 % 0x100 == hs[o + 1]
    ensures Truncated(hs) / 0x100 % 0x100 == hs[o + 2]
    ensures Truncated(hs) % 0x100 == hs[o + 3]
  {
    assert hs[o + 1] < 256 && hs[o + 2] < 256 && hs[o + 3] < 256;
    BytesOf(hs[o] % 128, hs[o + 1], hs[o + 2], hs[o + 3]);
  }

  lemma BytesOf(a: nat, b: nat, c: nat, d: nat)
    requires b < 256 && c < 256 && d < 256
    ensures var n := a * 0x100_0000 + b * 0x1_0000 + c * 0x100 + d;
            n / 0x100_0000 == a && n / 0x1_0000 % 0x100 == b && n / 0x100 % 0x100 == c && n % 0x100 == d
  {
    LowByte(a * 0x1_0000 + b * 0x100 + c, d);
    LowByte(a * 0x100 + b, c);
    LowByte(a, b);
    LowBytes(a, b, c, d);
  }

  lemma LowByte(high: nat, low: nat)
    requires low < 256
    ensures (high * 0x100 + low) / 0x100 == high && (high * 0x100 + low) % 0x100 == low
  {
  }

  lemma LowBytes(a: nat, b: nat, c: nat, d: nat)
    requires b < 256 && c < 256 && d < 256
    ensures var n := a * 0x100_0000 + b * 0x1_0000 + c * 0x100 + d;
            n / 0x100_0000 == a && n / 0x1_0000 == a * 0x100 + b
  {
    var high := a * 0x100 + b;
    assert (high * 0x1_0000 + (c * 0x100 + d)) / 0x1_0000 == high;
    assert (a * 0x100_0000 + (b * 0x1_0000 + c * 0x100 + d)) / 0x100_0000 == a;
  }

  /** What a string of digits says, the first digit most significant. */
  function Numeral(code: Code): int {
    if code == [] then 0 else 10 * Numeral(code[..|code| - 1]) + (code[|code| - 1] as int - 48)
  }

  lemma {:induction false} PaddedReadsBack(n: nat, width: nat)
    requires n < Pow10(width)
    ensures Numeral(Padded(n, width)) == n
  {
    if width > 0 {
      PaddedReadsBack(n / 10, width - 1);
      assert Padded(n, width)[..width - 1] == Padded(n / 10, width - 1);
      DigitReadsBack(n % 10);
    }
  }

  lemma DigitReadsBack(d: nat)
    requires d < 10
    ensures DigitBytes[d] as int - 48 == d
  {
    assert DigitBytes[0] == 48 && DigitBytes[1] == 49 && DigitBytes[2] == 50 && DigitBytes[3] == 51
        && DigitBytes[4] == 52 && DigitBytes[5] == 53 && DigitBytes[6] == 54 && DigitBytes[7] == 55
        && DigitBytes[8] == 56 && DigitBytes[9] == 57;
  }

  /** A code is six digits that read as the truncated value modulo a million. */
  lemma HotpNumeral(mac: Mac, secret: Secret, counter: nat)
    ensures var code := Hotp(mac, secret, counter);
            && |code| == 6 && (forall i :: 0 <= i < 6 ==> 48 <= code[i] <= 57)
            && Numeral(code) == Truncated(mac(secret, counter)) % 1_000_000
  {
    assert Pow10(6) == 1_000_000;
    PaddedReadsBack(Truncated(mac(secret, counter)) % 1_000_000, 6);
  }

  /** The worked example of section 5.4 of RFC 4226: the digest with 0x50ef7f19 at offset ten has
      the code 872921. */
  lemma RfcExample(mac: Mac, secret: Secret, counter: nat)
    requires mac(secret, counter) == [0x1f, 0x86, 0x98, 0x69, 0x0e, 0x02, 0xca, 0x16, 0x61, 0x85,
                                      0x50, 0xef, 0x7f, 0x19, 0xda, 0x8e, 0x94, 0x5b, 0x55, 0x5a]
    ensures Truncated(mac(secret, counter)) == 0x50ef7f19
    ensures Hotp(mac, secret, counter) == [56, 55, 50, 57, 50, 49]
  {
    assert 0x50ef7f19 % 1_000_000 == 872921;
    RfcDigits();
  }

  lemma RfcDigits()
    ensures Padded(872921, 6) == [56, 55, 50, 57, 50, 49]
  {
    assert Padded(872, 3) == [56, 55, 50];
    assert Padded(87292, 5) == [56, 55, 50, 57, 50];
  }

  /** Accumulating differences without an early exit still decides equality. */
  method CtEq(a: seq<bv8>, b: seq<bv8>) returns (same: bool)
    ensures same <==> a == b
  {
    if |a| != |b| {
      return false;
    }
    var diff: bv8 := 0;
    for i := 0 to |a|
      invariant diff == 0 <==> a[..i] == b[..i]
    {
      assert a[..i + 1] == a[..i] + [a[i]] && b[..i + 1] == b[..i] + [b[i]];
      diff := diff | (a[i] ^ b[i]);
    }
    assert a[..|a|] == a && b[..|b|] == b;
    same := diff == 0;
  }

  // ---------------------------------------------------------------- matching a code

  predicate WellFormed(code: Code) {
    |code| == 6 && forall i :: 0 <= i < |code| ==> IsDigitByte(code[i])
  }

  /** Previous, current and next step; before the first step ends, the current one twice. */
  function Candidates(now: nat): (steps: seq<nat>)
    ensures |steps| == 3
  {
    var current := now / Period;
    [if current == 0 then 0 else current - 1, current, current + 1]
  }

  function FirstMatch(mac: Mac, secret: Secret, code: Code, steps: seq<nat>): Option<nat> {
    if steps == [] then None
    else if Hotp(mac, secret, steps[0]) == code then Some(steps[0])
    else FirstMatch(mac, secret, code, steps[1..])
  }

  function Matched(mac: Mac, secret: Secret, code: Code, now: nat): Option<nat> {
    if WellFormed(code) then FirstMatch(mac, secret, code, Candidates(now)) else None
  }

  lemma {:induction false} FirstMatchMeans(mac: Mac, secret: Secret, code: Code, steps: seq<nat>)
    ensures var r := FirstMatch(mac, secret, code, steps);
            match r
            case None => forall i :: 0 <= i < |steps| ==> Hotp(mac, secret, steps[i]) != code
            case Some(s) => exists i :: 0 <= i < |steps| && steps[i] == s && Hotp(mac, secret, s) == code
                              && forall j :: 0 <= j < i ==> Hotp(mac, secret, steps[j]) != code
  {
    if steps != [] && Hotp(mac, secret, steps[0]) != code {
      FirstMatchMeans(mac, secret, code, steps[1..]);
      var r := FirstMatch(mac, secret, code, steps[1..]);
      if r.Some? {
        var i :| 0 <= i < |steps[1..]| && steps[1..][i] == r.value
                 && forall j :: 0 <= j < i ==> Hotp(mac, secret, steps[1..][j]) != code;
        assert steps[i + 1] == r.value;
        forall j | 0 <= j < i + 1 ensures Hotp(mac, secret, steps[j]) != code {
          assert j > 0 ==> steps[j] == steps[1..][j - 1];
        }
      } else {
        forall i | 0 <= i < |steps| ensures Hotp(mac, secret, steps[i]) != code {
          assert i > 0 ==> steps[i] == steps[1..][i - 1];
        }
      }
    }
  }

  /** A code is accepted exactly when it is the code of a step at most one away from now's, and
      the earliest such step is the one consumed. */
  lemma MatchedMeans(mac: Mac, secret: Secret, code: Code, now: nat)
    ensures Matched(mac, secret, code, now).Some?
            <==> exists s: nat :: now / 30 <= s + 1 && s <= now / 30 + 1 && Hotp(mac, secret, s) == code
    ensures Matched(mac, secret, code, now).Some? ==>
              var s := Matched(mac, secret, code, now).value;
              && now / 30 <= s + 1 && s <= now / 30 + 1 && Hotp(mac, secret, s) == code
              && forall e: nat :: now / 30 <= e + 1 && e < s ==> Hotp(mac, secret, e) != code
  {
    FirstMatchMeans(mac, secret, code, Candidates(now));
    var steps, current := Candidates(now), now / 30;
    assert steps[0] <= current && steps[1] == current && steps[2] == current + 1;
    forall s: nat | current <= s + 1 && s <= current + 1 && Hotp(mac, secret, s) == code
      ensures s == steps[0] || s == steps[1] || s == steps[2]
    {
    }
  }

  // ---------------------------------------------------------------- one account, step by step

  /** What a request sees of the user row. An empty key is a deleted one. */
  datatype Row = Row(key: Option<Secret>, verified: bool)

  /** A login that has read the watermark, or an enrolment whose code has matched, and not yet
      written the watermark: when it read, which step, at what clock time; `marked` says that an
      enrolment has written the verified flag. */
  datatype Pending = Pending(read: nat, step: nat, now: nat)
  datatype Enrolment = Enrolment(read: nat, step: nat, now: nat, marked: bool)

  /** The user row with its watermark, the guess window, and the requests under way: those that
      have only read the row, logins before their write, enrolments before their last write. */
  datatype Account = Account(row: Row, mark: nat, attempts: seq<nat>, seen: map<nat, Row>,
                             pending: map<nat, Pending>, enrols: map<nat, Enrolment>)

  datatype Event =
    | Setup(key: Secret)
    | Delete
    | Lookup(id: nat)
    | Read(id: nat, now: nat, code: Code)
    | Write(id: nat)
    | Check(id: nat, now: nat, code: Code)
    | Verify(id: nat)
    | EnrolWrite(id: nat)

  /** A consumed step: where its section began and ended in the run. */
  datatype Use = Use(login: bool, read: nat, written: nat, step: nat, now: nat)

  /** The login prompt asks for a code. */
  predicate Enforced(row: Row) {
    row.verified && row.key.Some? && row.key.value != []
  }

  function Guess(attempts: seq<nat>, now: nat): (seq<nat>, bool) {
    var live := Live(attempts, now, TotpHorizon);
    if |live| >= TotpLimit then (live, false) else (live + [now], true)
  }

  /** The monotone UPDATE: it changes the row exactly when the new step is larger. */
  function Advance(mark: nat, step: nat): nat {
    if mark < step then step else mark
  }

  function Attempted(mac: Mac, attempts: seq<nat>, now: nat, secret: Secret, code: Code): (seq<nat>, Option<nat>) {
    var (live, ok) := Guess(attempts, now);
    (live, if ok then Matched(mac, secret, code, now) else None)
  }

  /** The step a login's code would consume, had it not been consumed before. */
  function Offered(mac: Mac, a: Account, e: Event): Option<nat>
    requires e.Read?
  {
    if e.id in a.seen && Enforced(a.seen[e.id])
    then Attempted(mac, a.attempts, e.now, a.seen[e.id].key.value, e.code).1 else None
  }

  /** One section; a section whose request is not where it needs to be changes nothing. */
  function Step(mac: Mac, a: Account, at: nat, e: Event): (Account, Option<Use>) {
    match e
    case Setup(key) => (a.(row := Row(Some(key), false)), None)
    case Delete => (a.(row := Row(Some([]), false)), None)
    case Lookup(id) =>
      if id in a.pending || id in a.enrols then (a, None) else (a.(seen := a.seen[id := a.row]), None)
    case Read(id, now, code) =>
      if id !in a.seen || !Enforced(a.seen[id]) then (a, None)
      else
        var (attempts, step) := Attempted(mac, a.attempts, now, a.seen[id].key.value, code);
        var b := a.(attempts := attempts, seen := a.seen - {id});
        if step.Some? && step.value > a.mark
        then (b.(pending := a.pending[id := Pending(at, step.value, now)]), None) else (b, None)
    case Write(id) =>
      if id !in a.pending then (a, None)
      else
        var p := a.pending[id];
        (a.(mark := Advance(a.mark, p.step), pending := a.pending - {id}), Some(Use(true, p.read, at, p.step, p.now)))
    case Check(id, now, code) =>
      if id !in a.seen || a.seen[id].key.None? then (a, None)
      else
        var (attempts, step) := Attempted(mac, a.attempts, now, a.seen[id].key.value, code);
        var b := a.(attempts := attempts, seen := a.seen - {id});
        if step.Some? then (b.(enrols := a.enrols[id := Enrolment(at, step.value, now, false)]), None) else (b, None)
    case Verify(id) =>
      if id !in a.enrols then (a, None)
      else (a.(row := a.row.(verified := true), enrols := a.enrols[id := a.enrols[id].(marked := true)]), None)
    case EnrolWrite(id) =>
      if id !in a.enrols || !a.enrols[id].marked then (a, None)
      else
        var p := a.enrols[id];
        (a.(mark := Advance(a.mark, p.step), enrols := a.enrols - {id}), Some(Use(false, p.read, at, p.step, p.now)))
  }

  const Fresh0: Account := Account(Row(None, false), 0, [], map[], map[], map[])

  function After(mac: Mac, es: seq<Event>): Account {
    if es == [] then Fresh0
    else Step(mac, After(mac, es[..|es| - 1]), |es| - 1, es[|es| - 1]).0
  }

  function Opt<T>(u: Option<T>): seq<T> {
    if u.Some? then [u.value] else []
  }

  function Uses(mac: Mac, es: seq<Event>): seq<Use> {
    if es == [] then []
    else
      var front := es[..|es| - 1];
      Uses(mac, front) + Opt(Step(mac, After(mac, front), |front|, es[|es| - 1]).1)
  }

  /** The enrolment whose code this event checked and matched. */
  function CheckedAt(mac: Mac, a: Account, at: nat, e: Event): Option<Enrolment> {
    if !e.Check? || e.id !in a.seen || a.seen[e.id].key.None? then None
    else
      match Attempted(mac, a.attempts, e.now, a.seen[e.id].key.value, e.code).1
      case None => None
      case Some(step) => Some(Enrolment(at, step, e.now, false))
  }

  /** All enrolments whose code has matched so far, whether or not they have written yet. */
  function Checks(mac: Mac, es: seq<Event>): seq<Enrolment> {
    if es == [] then []
    else
      var front := es[..|es| - 1];
      Checks(mac, front) + Opt(CheckedAt(mac, After(mac, front), |front|, es[|es| - 1]))
  }

  lemma Snoc(mac: Mac, es: seq<Event>, e: Event)
    ensures After(mac, es + [e]) == Step(mac, After(mac, es), |es|, e).0
    ensures Uses(mac, es + [e]) == Uses(mac, es) + Opt(Step(mac, After(mac, es), |es|, e).1)
  {
    assert (es + [e])[..|es|] == es;
  }

  // ---------------------------------------------------------------- when a code is asked for

  /** Section k is an enrolment writing the verified flag, and no key is stored or deleted after it. */
  predicate VerifiedAt(mac: Mac, es: seq<Event>, k: nat)
    requires k < |es|
  {
    && es[k].Verify? && es[k].id in After(mac, es[..k]).enrols
    && forall i :: k < i < |es| ==> !es[i].Setup? && !es[i].Delete?
  }

  lemma VerifiedAtFront(mac: Mac, es: seq<Event>, k: nat)
    requires k + 1 < |es|
    ensures var (front, e) := (es[..|es| - 1], es[|es| - 1]);
            VerifiedAt(mac, es, k) <==> VerifiedAt(mac, front, k) && !e.Setup? && !e.Delete?
  {
    var front := es[..|es| - 1];
    assert front[..k] == es[..k];
    assert forall i :: k < i < |front| ==> front[i] == es[i];
    assert front[k] == es[k];
  }

  /** The key stored now is verified exactly when an enrolment has set the flag since the last
      time a key was stored or deleted. Storing or deleting one also takes the flag away. */
  lemma {:induction false} VerifiedIff(mac: Mac, es: seq<Event>)
    ensures After(mac, es).row.verified <==> exists k :: 0 <= k < |es| && VerifiedAt(mac, es, k)
  {
    if es != [] {
      var n := |es| - 1;
      VerifiedIff(mac, es[..n]);
      if k: nat :| k < n && VerifiedAt(mac, es[..n], k) {
        VerifiedAtFront(mac, es, k);
      }
      if k: nat :| k < n && VerifiedAt(mac, es, k) {
        VerifiedAtFront(mac, es, k);
      }
      assert VerifiedAt(mac, es, n) <==> es[n].Verify? && es[n].id in After(mac, es[..n]).enrols;
    }
  }

  /** The key stored now is the one stored last; a deletion stores an empty one. */
  lemma {:induction false} KeyIsLastStored(mac: Mac, es: seq<Event>, k: nat)
    requires k < |es| && (es[k].Setup? || es[k].Delete?)
    requires forall i :: k < i < |es| ==> !es[i].Setup? && !es[i].Delete?
    ensures After(mac, es).row.key == Some(if es[k].Setup? then es[k].key else [])
  {
    if k < |es| - 1 {
      KeyIsLastStored(mac, es[..|es| - 1], k);
    }
  }

  // ---------------------------------------------------------------- the watermark under any interleaving

  ghost predicate UsesOrdered(uses: seq<Use>, at: nat, mark: nat) {
    && (forall i :: 0 <= i < |uses| ==> uses[i].read < uses[i].written < at && uses[i].step <= mark)
    && (mark > 0 ==> exists i :: 0 <= i < |uses| && uses[i].step == mark)
    && (forall i, j :: 0 <= i < |uses| && 0 <= j < |uses| && uses[j].login && uses[i].written < uses[j].read
          ==> uses[i].step < uses[j].step)
  }

  ghost predicate PendingOrdered(uses: seq<Use>, at: nat, pending: map<nat, Pending>) {
    forall l :: l in pending ==>
      && pending[l].read < at && pending[l].step > 0
      && forall i :: 0 <= i < |uses| && uses[i].written < pending[l].read ==> uses[i].step < pending[l].step
  }

  predicate EnrolsOrdered(at: nat, enrols: map<nat, Enrolment>) {
    forall l :: l in enrols ==> enrols[l].read < at
  }

  ghost predicate Ordered(uses: seq<Use>, at: nat, a: Account) {
    UsesOrdered(uses, at, a.mark) && PendingOrdered(uses, at, a.pending) && EnrolsOrdered(at, a.enrols)
  }

  lemma AppendUse(uses: seq<Use>, at: nat, mark: nat, use: Use)
    requires UsesOrdered(uses, at, mark) && use.read < use.written == at
    requires use.login ==> forall i :: 0 <= i < |uses| && uses[i].written < use.read ==> uses[i].step < use.step
    ensures UsesOrdered(uses + [use], at + 1, Advance(mark, use.step))
  {
    var after := uses + [use];
    if mark < use.step {
      assert after[|uses|].step == use.step;
    } else if mark > 0 {
      var i :| 0 <= i < |uses| && uses[i].step == mark;
      assert after[i].step == mark;
    }
  }

  lemma KeepPending(uses: seq<Use>, at: nat, pending: map<nat, Pending>, id: nat, use: Use)
    requires PendingOrdered(uses, at, pending) && use.written == at
    ensures PendingOrdered(uses, at + 1, pending)
    ensures PendingOrdered(uses + [use], at + 1, pending)
    ensures PendingOrdered(uses + [use], at + 1, pending - {id})
  {
  }

  lemma AddPending(uses: seq<Use>, at: nat, mark: nat, pending: map<nat, Pending>, id: nat, p: Pending)
    requires UsesOrdered(uses, at, mark) && PendingOrdered(uses, at, pending)
    requires p.read == at && p.step > mark
    ensures PendingOrdered(uses, at + 1, pending[id := p])
  {
  }

  lemma ReadIsOrdered(mac: Mac, a: Account, uses: seq<Use>, at: nat, e: Event)
    requires Ordered(uses, at, a) && e.Read?
    ensures Ordered(uses, at + 1, Step(mac, a, at, e).0)
  {
    var b := Step(mac, a, at, e).0;
    KeepPending(uses, at, a.pending, 0, Use(false, at, at, 0, 0));
    if b.pending != a.pending {
      AddPending(uses, at, a.mark, a.pending, e.id, b.pending[e.id]);
    }
  }

  lemma WriteIsOrdered(mac: Mac, a: Account, uses: seq<Use>, at: nat, e: Event)
    requires Ordered(uses, at, a) && Step(mac, a, at, e).1.Some?
    ensures Ordered(uses + [Step(mac, a, at, e).1.value], at + 1, Step(mac, a, at, e).0)
  {
    var use := Step(mac, a, at, e).1.value;
    AppendUse(uses, at, a.mark, use);
    KeepPending(uses, at, a.pending, e.id, use);
  }

  lemma QuietIsOrdered(mac: Mac, a: Account, uses: seq<Use>, at: nat, e: Event)
    requires Ordered(uses, at, a) && Step(mac, a, at, e).1.None? && !e.Read?
    ensures Ordered(uses, at + 1, Step(mac, a, at, e).0)
  {
    KeepPending(uses, at, a.pending, 0, Use(false, at, at, 0, 0));
  }

  lemma {:induction false} RunIsOrdered(mac: Mac, es: seq<Event>)
    ensures Ordered(Uses(mac, es), |es|, After(mac, es))
  {
    if es != [] {
      var front, e := es[..|es| - 1], es[|es| - 1];
      var a, uses, at := After(mac, front), Uses(mac, front), |front|;
      RunIsOrdered(mac, front);
      assert uses + [] == uses;
      if e.Read? {
        ReadIsOrdered(mac, a, uses, at, e);
      } else if Step(mac, a, at, e).1.Some? {
        WriteIsOrdered(mac, a, uses, at, e);
      } else {
        QuietIsOrdered(mac, a, uses, at, e);
      }
    }
  }

  /** However sections interleave, a login whose watermark read comes after another use was
      written consumes a strictly later step. */
  lemma LaterReadsTakeLaterSteps(mac: Mac, es: seq<Event>, i: nat, j: nat)
    requires i < |Uses(mac, es)| && j < |Uses(mac, es)|
    requires Uses(mac, es)[j].login && Uses(mac, es)[i].written < Uses(mac, es)[j].read
    ensures Uses(mac, es)[i].step < Uses(mac, es)[j].step
  {
    RunIsOrdered(mac, es);
  }

  // ---------------------------------------------------------------- exactly when single use holds

  ghost predicate ExceedsAll(step: nat, uses: seq<Use>) {
    forall i :: 0 <= i < |uses| ==> uses[i].step < step
  }

  lemma MarkIsLargest(uses: seq<Use>, at: nat, mark: nat, step: nat)
    requires step > 0 && UsesOrdered(uses, at, mark)
    ensures mark < step <==> ExceedsAll(step, uses)
  {
    if mark >= step {
      var i :| 0 <= i < |uses| && uses[i].step == mark;
      assert uses[i].step >= step;
    }
  }

  lemma AboveMark(mac: Mac, es: seq<Event>, step: nat)
    requires step > 0
    ensures After(mac, es).mark < step <==> ExceedsAll(step, Uses(mac, es))
  {
    RunIsOrdered(mac, es);
    MarkIsLargest(Uses(mac, es), |es|, After(mac, es).mark, step);
  }

  /** After any run, a login passes its watermark read exactly when its code offers a positive
      step that exceeds every step written so far, at login or at enrolment. */
  lemma ReadPassesIff(mac: Mac, es: seq<Event>, e: Event)
    requires e.Read? && e.id !in After(mac, es).pending
    ensures var offered := Offered(mac, After(mac, es), e);
            e.id in After(mac, es + [e]).pending
            <==> offered.Some? && offered.value > 0 && ExceedsAll(offered.value, Uses(mac, es))
  {
    Snoc(mac, es, e);
    var offered := Offered(mac, After(mac, es), e);
    if offered.Some? && offered.value > 0 {
      AboveMark(mac, es, offered.value);
    }
  }

  /** A request is in one place at a time. */
  predicate Disjoint(a: Account) {
    forall id :: id in a.seen ==> id !in a.pending && id !in a.enrols
  }

  /** The same enrolment, before or after it wrote its flag. */
  predicate SameCheck(c: Enrolment, read: nat, step: nat) {
    c.read == read && c.step == step
  }

  ghost predicate IsOpen(c: Enrolment, a: Account) {
    exists id :: id in a.enrols && SameCheck(c, a.enrols[id].read, a.enrols[id].step)
  }

  ghost predicate IsUsed(c: Enrolment, uses: seq<Use>) {
    exists i :: 0 <= i < |uses| && !uses[i].login && SameCheck(c, uses[i].read, uses[i].step)
  }

  /** Every checked enrolment is open or has written, and every open one was checked. */
  ghost predicate Logged(checks: seq<Enrolment>, uses: seq<Use>, a: Account, at: nat) {
    && (forall k :: 0 <= k < |checks| ==> checks[k].read < at && (IsOpen(checks[k], a) || IsUsed(checks[k], uses)))
    && (forall id :: id in a.enrols ==>
          exists k :: 0 <= k < |checks| && SameCheck(checks[k], a.enrols[id].read, a.enrols[id].step))
  }

  lemma StaysOpen(c: Enrolment, a: Account, b: Account)
    requires IsOpen(c, a)
    requires forall id :: id in a.enrols ==>
               id in b.enrols && SameCheck(b.enrols[id], a.enrols[id].read, a.enrols[id].step)
    ensures IsOpen(c, b)
  {
    var id :| id in a.enrols && SameCheck(c, a.enrols[id].read, a.enrols[id].step);
    assert SameCheck(c, b.enrols[id].read, b.enrols[id].step);
  }

  lemma StaysUsed(c: Enrolment, uses: seq<Use>, use: Option<Use>)
    requires IsUsed(c, uses)
    ensures IsUsed(c, uses + Opt(use))
  {
    var i :| 0 <= i < |uses| && !uses[i].login && SameCheck(c, uses[i].read, uses[i].step);
    assert (uses + Opt(use))[i] == uses[i];
  }

  lemma CheckIsLogged(mac: Mac, a: Account, checks: seq<Enrolment>, uses: seq<Use>, at: nat, e: Event)
    requires Logged(checks, uses, a, at) && Disjoint(a) && CheckedAt(mac, a, at, e).Some?
    ensures Logged(checks + [CheckedAt(mac, a, at, e).value], uses, Step(mac, a, at, e).0, at + 1)
  {
    var c, b := CheckedAt(mac, a, at, e).value, Step(mac, a, at, e).0;
    var after := checks + [c];
    assert b.enrols == a.enrols[e.id := c];
    forall k | 0 <= k < |after| ensures after[k].read < at + 1 && (IsOpen(after[k], b) || IsUsed(after[k], uses)) {
      if k == |checks| {
        assert SameCheck(c, b.enrols[e.id].read, b.enrols[e.id].step);
      } else if IsOpen(checks[k], a) {
        StaysOpen(checks[k], a, b);
      }
    }
    forall id | id in b.enrols
      ensures exists k :: 0 <= k < |after| && SameCheck(after[k], b.enrols[id].read, b.enrols[id].step)
    {
      if id == e.id {
        assert SameCheck(after[|checks|], c.read, c.step);
      } else {
        var k :| 0 <= k < |checks| && SameCheck(checks[k], a.enrols[id].read, a.enrols[id].step);
        assert after[k] == checks[k];
      }
    }
  }

  /** An enrolment that writes moves from the open ones to the uses. */
  lemma ClosedIsLogged(checks: seq<Enrolment>, uses: seq<Use>, a: Account, b: Account, at: nat, id: nat, use: Use)
    requires Logged(checks, uses, a, at) && id in a.enrols && b.enrols == a.enrols - {id}
    requires !use.login && use.read == a.enrols[id].read && use.step == a.enrols[id].step
    ensures Logged(checks, uses + Opt(Some(use)), b, at + 1)
  {
    var after := uses + Opt(Some(use));
    assert after[|uses|] == use;
    forall k | 0 <= k < |checks| ensures checks[k].read < at + 1 && (IsOpen(checks[k], b) || IsUsed(checks[k], after)) {
      if IsUsed(checks[k], uses) {
        StaysUsed(checks[k], uses, Some(use));
      } else {
        var l :| l in a.enrols && SameCheck(checks[k], a.enrols[l].read, a.enrols[l].step);
        if l == id {
          assert SameCheck(checks[k], after[|uses|].read, after[|uses|].step);
        } else {
          assert l in b.enrols && SameCheck(checks[k], b.enrols[l].read, b.enrols[l].step);
        }
      }
    }
    forall l | l in b.enrols
      ensures exists k :: 0 <= k < |checks| && SameCheck(checks[k], b.enrols[l].read, b.enrols[l].step)
    {
      assert b.enrols[l] == a.enrols[l];
    }
  }

  lemma EnrolWriteIsLogged(mac: Mac, a: Account, checks: seq<Enrolment>, uses: seq<Use>, at: nat, e: Event)
    requires Logged(checks, uses, a, at) && e.EnrolWrite? && Step(mac, a, at, e).1.Some?
    ensures Logged(checks, uses + Opt(Step(mac, a, at, e).1), Step(mac, a, at, e).0, at + 1)
  {
    var (b, use) := Step(mac, a, at, e);
    ClosedIsLogged(checks, uses, a, b, at, e.id, use.value);
  }

  /** Nothing happens to the open enrolments but their flag. */
  lemma KeptIsLogged(checks: seq<Enrolment>, uses: seq<Use>, a: Account, b: Account, at: nat, use: Option<Use>)
    requires Logged(checks, uses, a, at) && b.enrols.Keys == a.enrols.Keys
    requires forall id :: id in a.enrols ==> SameCheck(b.enrols[id], a.enrols[id].read, a.enrols[id].step)
    ensures Logged(checks, uses + Opt(use), b, at + 1)
  {
    forall k | 0 <= k < |checks|
      ensures checks[k].read < at + 1 && (IsOpen(checks[k], b) || IsUsed(checks[k], uses + Opt(use)))
    {
      if IsOpen(checks[k], a) {
        StaysOpen(checks[k], a, b);
      } else {
        StaysUsed(checks[k], uses, use);
      }
    }
    forall id | id in b.enrols
      ensures exists k :: 0 <= k < |checks| && SameCheck(checks[k], b.enrols[id].read, b.enrols[id].step)
    {
      var k :| 0 <= k < |checks| && SameCheck(checks[k], a.enrols[id].read, a.enrols[id].step);
    }
  }

  lemma OtherIsLogged(mac: Mac, a: Account, checks: seq<Enrolment>, uses: seq<Use>, at: nat, e: Event)
    requires Logged(checks, uses, a, at) && CheckedAt(mac, a, at, e).None?
    requires !(e.EnrolWrite? && Step(mac, a, at, e).1.Some?)
    ensures Logged(checks, uses + Opt(Step(mac, a, at, e).1), Step(mac, a, at, e).0, at + 1)
  {
    var (b, use) := Step(mac, a, at, e);
    KeptIsLogged(checks, uses, a, b, at, use);
  }

  lemma StepIsDisjoint(mac: Mac, a: Account, at: nat, e: Event)
    requires Disjoint(a)
    ensures Disjoint(Step(mac, a, at, e).0)
  {
  }

  lemma StepIsLogged(mac: Mac, a: Account, checks: seq<Enrolment>, uses: seq<Use>, at: nat, e: Event)
    requires Logged(checks, uses, a, at) && Disjoint(a)
    ensures var (b, use) := Step(mac, a, at, e);
            Logged(checks + Opt(CheckedAt(mac, a, at, e)), uses + Opt(use), b, at + 1)
  {
    assert checks + [] == checks && uses + [] == uses;
    if CheckedAt(mac, a, at, e).Some? {
      CheckIsLogged(mac, a, checks, uses, at, e);
    } else if e.EnrolWrite? && Step(mac, a, at, e).1.Some? {
      EnrolWriteIsLogged(mac, a, checks, uses, at, e);
    } else {
      OtherIsLogged(mac, a, checks, uses, at, e);
    }
  }

  lemma {:induction false} RunIsLogged(mac: Mac, es: seq<Event>)
    ensures Disjoint(After(mac, es)) && Logged(Checks(mac, es), Uses(mac, es), After(mac, es), |es|)
  {
    if es != [] {
      var front, e := es[..|es| - 1], es[|es| - 1];
      RunIsLogged(mac, front);
      StepIsDisjoint(mac, After(mac, front), |front|, e);
      StepIsLogged(mac, After(mac, front), Checks(mac, front), Uses(mac, front), |front|, e);
    }
  }

  /** A login's step is above every enrolment's that was checked before the login read. */
  ghost predicate ExceedsChecks(step: nat, read: nat, checks: seq<Enrolment>) {
    forall k :: 0 <= k < |checks| && checks[k].read < read ==> checks[k].step < step
  }

  /** No enrolment still to write had checked a step at or above this login's before it read. */
  predicate ClearOfEnrolments(a: Account, p: Pending) {
    forall id :: id in a.enrols && a.enrols[id].read < p.read ==> a.enrols[id].step < p.step
  }

  /** When a login writes, its step is above every step written before exactly when the
      conditional UPDATE changes the row. */
  lemma UpdateChangesIff(mac: Mac, es: seq<Event>, id: nat)
    requires id in After(mac, es).pending
    ensures var a := After(mac, es);
            ExceedsAll(a.pending[id].step, Uses(mac, es)) <==> Advance(a.mark, a.pending[id].step) != a.mark
  {
    RunIsOrdered(mac, es);
    AboveMark(mac, es, After(mac, es).pending[id].step);
  }

  /** When a login writes, its step is new exactly when the conditional UPDATE changes the row and
      no enrolment still to write had checked a step at or above it before the login read. New
      means above every step written so far and above every enrolment's checked before the read. */
  lemma WriteIsFreshIff(mac: Mac, es: seq<Event>, id: nat)
    requires id in After(mac, es).pending
    ensures var a := After(mac, es);
            var p := a.pending[id];
            (ExceedsAll(p.step, Uses(mac, es)) && ExceedsChecks(p.step, p.read, Checks(mac, es)))
            <==> Advance(a.mark, p.step) != a.mark && ClearOfEnrolments(a, p)
  {
    var a := After(mac, es);
    var p := a.pending[id];
    UpdateChangesIff(mac, es, id);
    RunIsLogged(mac, es);
    FreshIff(Checks(mac, es), Uses(mac, es), a, |es|, p);
  }

  lemma FreshIff(checks: seq<Enrolment>, uses: seq<Use>, a: Account, at: nat, p: Pending)
    requires Logged(checks, uses, a, at)
    ensures ExceedsAll(p.step, uses) && ExceedsChecks(p.step, p.read, checks)
            <==> ExceedsAll(p.step, uses) && ClearOfEnrolments(a, p)
  {
    if ExceedsAll(p.step, uses) {
      OpenOrUsed(checks, uses, a, at, p);
    }
  }

  lemma OpenOrUsed(checks: seq<Enrolment>, uses: seq<Use>, a: Account, at: nat, p: Pending)
    requires Logged(checks, uses, a, at) && ExceedsAll(p.step, uses)
    ensures ExceedsChecks(p.step, p.read, checks) <==> ClearOfEnrolments(a, p)
  {
    if ExceedsChecks(p.step, p.read, checks) {
      forall id | id in a.enrols && a.enrols[id].read < p.read ensures a.enrols[id].step < p.step {
        var k :| 0 <= k < |checks| && SameCheck(checks[k], a.enrols[id].read, a.enrols[id].step);
      }
    }
    if ClearOfEnrolments(a, p) {
      forall k | 0 <= k < |checks| && checks[k].read < p.read ensures checks[k].step < p.step {
        if IsUsed(checks[k], uses) {
          var i :| 0 <= i < |uses| && !uses[i].login && SameCheck(checks[k], uses[i].read, uses[i].step);
        } else {
          var id :| id in a.enrols && SameCheck(checks[k], a.enrols[id].read, a.enrols[id].step);
        }
      }
    }
  }

  /** Every login of the run consumed a step above all those written before it. */
  ghost predicate Ascending(uses: seq<Use>) {
    forall i, j :: 0 <= i < j < |uses| && uses[j].login ==> uses[i].step < uses[j].step
  }

  /** Single use: every login's step is above all those written before it, at login or enrolment,
      and above every enrolment's whose code was checked before the login read, even if that
      enrolment writes later. */
  ghost predicate SingleUse(uses: seq<Use>, checks: seq<Enrolment>) {
    && Ascending(uses)
    && forall j :: 0 <= j < |uses| && uses[j].login ==> ExceedsChecks(uses[j].step, uses[j].read, checks)
  }

  /** Every login's UPDATE changed the row. */
  predicate UpdatesTakeEffect(mac: Mac, es: seq<Event>) {
    es == [] ||
    var (front, e) := (es[..|es| - 1], es[|es| - 1]);
    var a := After(mac, front);
    UpdatesTakeEffect(mac, front) && (e.Write? && e.id in a.pending ==> Advance(a.mark, a.pending[e.id].step) != a.mark)
  }

  /** No login wrote while an enrolment that had checked a step at or above its own before the
      login read had yet to write. */
  predicate EnrolmentsClear(mac: Mac, es: seq<Event>) {
    es == [] ||
    var (front, e) := (es[..|es| - 1], es[|es| - 1]);
    var a := After(mac, front);
    EnrolmentsClear(mac, front) && (e.Write? && e.id in a.pending ==> ClearOfEnrolments(a, a.pending[e.id]))
  }

  lemma AscendingSnoc(uses: seq<Use>, use: Use)
    ensures Ascending(uses + [use]) <==> Ascending(uses) && (use.login ==> ExceedsAll(use.step, uses))
  {
    var after := uses + [use];
    assert after[..|uses|] == uses && after[|uses|] == use;
    if Ascending(after) {
      forall i, j | 0 <= i < j < |uses| && uses[j].login ensures uses[i].step < uses[j].step {
        assert after[i] == uses[i] && after[j] == uses[j];
      }
      forall i | 0 <= i < |uses| && use.login ensures uses[i].step < use.step {
        assert after[i] == uses[i];
      }
    }
  }

  /** Logins write ascending steps exactly when every login's UPDATE changed the row. */
  lemma {:induction false} AscendingIff(mac: Mac, es: seq<Event>)
    ensures Ascending(Uses(mac, es)) <==> UpdatesTakeEffect(mac, es)
  {
    if es != [] {
      var front, e := es[..|es| - 1], es[|es| - 1];
      var use := Step(mac, After(mac, front), |front|, e).1;
      AscendingIff(mac, front);
      if use.Some? {
        AscendingSnoc(Uses(mac, front), use.value);
        if e.Write? {
          UpdateChangesIff(mac, front, e.id);
        }
      } else {
        assert Uses(mac, front) + [] == Uses(mac, front);
      }
    }
  }

  lemma SingleUseSnoc(uses: seq<Use>, use: Use, checks: seq<Enrolment>)
    ensures SingleUse(uses + [use], checks) <==>
              SingleUse(uses, checks)
              && (use.login ==> ExceedsAll(use.step, uses) && ExceedsChecks(use.step, use.read, checks))
  {
    var after := uses + [use];
    AscendingSnoc(uses, use);
    assert after[|uses|] == use;
    if SingleUse(after, checks) {
      forall j | 0 <= j < |uses| && uses[j].login ensures ExceedsChecks(uses[j].step, uses[j].read, checks) {
        assert after[j] == uses[j];
      }
    }
  }

  /** A check that comes after every login so far read changes nothing for them. */
  lemma LateCheck(uses: seq<Use>, checks: seq<Enrolment>, c: Enrolment)
    requires forall i :: 0 <= i < |uses| ==> uses[i].read < c.read
    ensures SingleUse(uses, checks + [c]) <==> SingleUse(uses, checks)
  {
    forall j | 0 <= j < |uses|
      ensures ExceedsChecks(uses[j].step, uses[j].read, checks + [c])
              <==> ExceedsChecks(uses[j].step, uses[j].read, checks)
    {
      if ExceedsChecks(uses[j].step, uses[j].read, checks + [c]) {
        forall k | 0 <= k < |checks| && checks[k].read < uses[j].read ensures checks[k].step < uses[j].step {
          assert (checks + [c])[k] == checks[k];
        }
      }
    }
  }

  lemma SingleUseGrows(uses: seq<Use>, checks: seq<Enrolment>, u: Option<Use>, c: Option<Enrolment>, isNew: bool)
    requires c.Some? ==> u.None? && forall i :: 0 <= i < |uses| ==> uses[i].read < c.value.read
    requires u.Some? && u.value.login ==>
               (isNew <==> ExceedsAll(u.value.step, uses) && ExceedsChecks(u.value.step, u.value.read, checks))
    requires u.None? || !u.value.login ==> isNew
    ensures SingleUse(uses + Opt(u), checks + Opt(c)) <==> SingleUse(uses, checks) && isNew
  {
    assert uses + [] == uses && checks + [] == checks;
    if c.Some? {
      LateCheck(uses, checks, c.value);
    } else if u.Some? {
      SingleUseSnoc(uses, u.value, checks);
    }
  }

  /** A login that writes now writes a new step. */
  predicate WritesFresh(a: Account, e: Event) {
    e.Write? && e.id in a.pending ==>
      Advance(a.mark, a.pending[e.id].step) != a.mark && ClearOfEnrolments(a, a.pending[e.id])
  }

  lemma WhatStepsDo(mac: Mac, a: Account, at: nat, e: Event)
    ensures var (use, check) := (Step(mac, a, at, e).1, CheckedAt(mac, a, at, e));
            && (check.Some? ==> use.None? && check.value.read == at)
            && (use.Some? && use.value.login ==>
                  e.Write? && e.id in a.pending
                  && use.value.step == a.pending[e.id].step && use.value.read == a.pending[e.id].read)
            && (use.None? || !use.value.login ==> WritesFresh(a, e))
  {
  }

  /** One event keeps the equivalence. */
  lemma SingleUseStep(mac: Mac, a: Account, uses: seq<Use>, checks: seq<Enrolment>, at: nat, e: Event)
    requires Ordered(uses, at, a) && Logged(checks, uses, a, at)
    ensures SingleUse(uses + Opt(Step(mac, a, at, e).1), checks + Opt(CheckedAt(mac, a, at, e))) <==>
              SingleUse(uses, checks) && WritesFresh(a, e)
  {
    var use, check := Step(mac, a, at, e).1, CheckedAt(mac, a, at, e);
    WhatStepsDo(mac, a, at, e);
    if use.Some? && use.value.login {
      MarkIsLargest(uses, at, a.mark, use.value.step);
      FreshIff(checks, uses, a, at, a.pending[e.id]);
    }
    SingleUseGrows(uses, checks, use, check, WritesFresh(a, e));
  }

  /** Single use of a whole run, under any interleaving, holds exactly when every login's
      conditional UPDATE changed the row and no login wrote ahead of an enrolment that had checked
      a step at or above its own before it read. */
  lemma {:induction false} SingleUseIff(mac: Mac, es: seq<Event>)
    ensures SingleUse(Uses(mac, es), Checks(mac, es)) <==> UpdatesTakeEffect(mac, es) && EnrolmentsClear(mac, es)
  {
    if es != [] {
      var front, e := es[..|es| - 1], es[|es| - 1];
      SingleUseIff(mac, front);
      RunIsOrdered(mac, front);
      RunIsLogged(mac, front);
      SingleUseStep(mac, After(mac, front), Uses(mac, front), Checks(mac, front), |front|, e);
    }
  }

  // ---------------------------------------------------------------- sections that do not overlap

  /** No login reads the watermark, and no enrolment checks its code, while another login or
      enrolment has yet to write the watermark. */
  predicate OneAtATime(mac: Mac, es: seq<Event>) {
    forall i :: 0 <= i < |es| && (es[i].Read? || es[i].Check?) ==>
      After(mac, es[..i]).pending == map[] && After(mac, es[..i]).enrols == map[]
  }

  /** Every use ended before the section now open began, and only one is open. */
  ghost predicate Sequential(uses: seq<Use>, a: Account) {
    && (forall i, j :: 0 <= i < j < |uses| && uses[j].login ==> uses[i].written < uses[j].read)
    && (forall l, i :: l in a.pending && 0 <= i < |uses| ==> uses[i].written < a.pending[l].read)
    && (forall k, l :: k in a.pending && l in a.pending ==> k == l)
    && (a.pending == map[] || a.enrols == map[])
  }

  lemma StepIsSequential(mac: Mac, a: Account, uses: seq<Use>, at: nat, e: Event)
    requires forall i :: 0 <= i < |uses| ==> uses[i].written < at
    requires Sequential(uses, a)
    requires e.Read? || e.Check? ==> a.pending == map[] && a.enrols == map[]
    ensures var (b, use) := Step(mac, a, at, e); Sequential(uses + Opt(use), b)
  {
  }

  lemma {:induction false} RunIsSequential(mac: Mac, es: seq<Event>)
    requires OneAtATime(mac, es)
    ensures Sequential(Uses(mac, es), After(mac, es))
  {
    if es != [] {
      var front := es[..|es| - 1];
      assert forall i :: 0 <= i < |front| ==> front[..i] == es[..i];
      RunIsSequential(mac, front);
      RunIsOrdered(mac, front);
      StepIsSequential(mac, After(mac, front), Uses(mac, front), |front|, es[|es| - 1]);
    }
  }

  /** Single use: when sections do not overlap, the steps accepted at login strictly increase and
      exceed every step consumed before them, at login or at enrolment. */
  lemma StepsStrictlyIncrease(mac: Mac, es: seq<Event>, i: nat, j: nat)
    requires OneAtATime(mac, es) && i < j < |Uses(mac, es)| && Uses(mac, es)[j].login
    ensures Uses(mac, es)[i].step < Uses(mac, es)[j].step
  {
    RunIsSequential(mac, es);
    LaterReadsTakeLaterSteps(mac, es, i, j);
  }

  // ---------------------------------------------------------------- how many logins fit

  predicate Near(step: nat, now: nat) {
    now / 30 <= step + 1 && step <= now / 30 + 1
  }

  ghost predicate PendingNear(pending: map<nat, Pending>) {
    forall l :: l in pending ==> Near(pending[l].step, pending[l].now)
  }

  lemma {:induction false} LoginsAreNear(mac: Mac, es: seq<Event>)
    ensures forall i :: 0 <= i < |Uses(mac, es)| && Uses(mac, es)[i].login ==>
              Near(Uses(mac, es)[i].step, Uses(mac, es)[i].now)
    ensures PendingNear(After(mac, es).pending)
  {
    if es != [] {
      var front, e := es[..|es| - 1], es[|es| - 1];
      LoginsAreNear(mac, front);
      NearAfterStep(mac, After(mac, front), |front|, e);
    }
  }

  lemma NearAfterStep(mac: Mac, a: Account, at: nat, e: Event)
    requires PendingNear(a.pending)
    ensures var (b, use) := Step(mac, a, at, e);
            PendingNear(b.pending) && (use.Some? && use.value.login ==> Near(use.value.step, use.value.now))
  {
    if e.Read? && e.id in a.seen && Enforced(a.seen[e.id]) {
      MatchedMeans(mac, a.seen[e.id].key.value, e.code, e.now);
    }
  }

  /** Logins whose code was checked at a clock time in t0..t1. */
  function LoginsBetween(uses: seq<Use>, t0: nat, t1: nat): nat {
    if uses == [] then 0
    else
      var u := uses[|uses| - 1];
      LoginsBetween(uses[..|uses| - 1], t0, t1) + if u.login && t0 <= u.now <= t1 then 1 else 0
  }

  function Max(a: int, b: int): int {
    if a < b then b else a
  }

  function Min(a: int, b: int): int {
    if a < b then a else b
  }

  /** Increasing steps in a window of clock times are at most as many as the window's steps. */
  lemma {:induction false} IncreasingFit(uses: seq<Use>, t0: nat, t1: nat, below: int)
    requires forall i :: 0 <= i < |uses| && uses[i].login ==> Near(uses[i].step, uses[i].now)
    requires Ascending(uses) && forall i :: 0 <= i < |uses| ==> uses[i].step < below
    ensures LoginsBetween(uses, t0, t1) <= Max(0, Min(below, t1 / 30 + 2) - (t0 / 30 - 1))
  {
    if uses != [] {
      var front, u := uses[..|uses| - 1], uses[|uses| - 1];
      if u.login && t0 <= u.now <= t1 {
        assert t0 / 30 <= u.now / 30 <= t1 / 30;
        IncreasingFit(front, t0, t1, u.step);
      } else {
        IncreasingFit(front, t0, t1, below);
      }
    }
  }

  /** In every run in which every login's UPDATE changed the row, at most t1/30 - t0/30 + 3 logins succeed between
      clock times t0 and t1, whatever the clock does in between. */
  lemma LoginsFit(mac: Mac, es: seq<Event>, t0: nat, t1: nat)
    requires UpdatesTakeEffect(mac, es) && t0 <= t1
    ensures LoginsBetween(Uses(mac, es), t0, t1) <= t1 / 30 - t0 / 30 + 3
  {
    LoginsAreNear(mac, es);
    RunIsOrdered(mac, es);
    AscendingIff(mac, es);
    IncreasingFit(Uses(mac, es), t0, t1, After(mac, es).mark + 1);
    assert t0 / 30 <= t1 / 30;
  }

  lemma {:induction false} OneAtATimeIsClear(mac: Mac, es: seq<Event>)
    requires OneAtATime(mac, es)
    ensures EnrolmentsClear(mac, es)
  {
    if es != [] {
      var front := es[..|es| - 1];
      assert forall i :: 0 <= i < |front| ==> front[..i] == es[..i];
      OneAtATimeIsClear(mac, front);
      RunIsSequential(mac, front);
    }
  }

  /** Runs whose sections do not overlap have single use. */
  lemma OneAtATimeIsSingleUse(mac: Mac, es: seq<Event>)
    requires OneAtATime(mac, es)
    ensures SingleUse(Uses(mac, es), Checks(mac, es)) && UpdatesTakeEffect(mac, es) && EnrolmentsClear(mac, es)
  {
    var uses := Uses(mac, es);
    forall i, j | 0 <= i < j < |uses| && uses[j].login ensures uses[i].step < uses[j].step {
      StepsStrictlyIncrease(mac, es, i, j);
    }
    AscendingIff(mac, es);
    OneAtATimeIsClear(mac, es);
    SingleUseIff(mac, es);
  }

  // ---------------------------------------------------------------- interleaved sections

  /** With at most three live guesses the next two pass the limiter. */
  lemma RoomForTwo(attempts: seq<nat>, now: nat)
    requires |Live(attempts, now, TotpHorizon)| <= 3
    ensures Guess(attempts, now).1 && Guess(Guess(attempts, now).0, now).1
    ensures |Live(Guess(attempts, now).0, now, TotpHorizon)| <= |Live(attempts, now, TotpHorizon)| + 1
  {
    LiveLater(attempts, now, now, TotpHorizon);
    LiveAppend(Live(attempts, now, TotpHorizon), now, now, TotpHorizon);
  }

  lemma ReadStep(mac: Mac, a: Account, at: nat, e: Event)
    requires e.Read? && e.id in a.seen && Offered(mac, a, e).Some? && Offered(mac, a, e).value > a.mark
    ensures Step(mac, a, at, e)
            == (a.(attempts := Guess(a.attempts, e.now).0, seen := a.seen - {e.id},
                   pending := a.pending[e.id := Pending(at, Offered(mac, a, e).value, e.now)]), None)
  {
  }

  /** The run has led here. */
  ghost predicate Reached(mac: Mac, es: seq<Event>, a: Account, uses: seq<Use>) {
    After(mac, es) == a && Uses(mac, es) == uses
  }

  lemma Extend(mac: Mac, es: seq<Event>, a: Account, uses: seq<Use>, e: Event, b: Account, u: Option<Use>)
    requires Reached(mac, es, a, uses) && Step(mac, a, |es|, e) == (b, u)
    ensures Reached(mac, es + [e], b, uses + Opt(u))
  {
    Snoc(mac, es, e);
  }

  lemma ExtendTwice(mac: Mac, es: seq<Event>, a: Account, uses: seq<Use>, e: Event, f: Event, b: Account, c: Account,
                    u: Option<Use>, v: Option<Use>)
    requires Reached(mac, es, a, uses) && Step(mac, a, |es|, e) == (b, u) && Step(mac, b, |es| + 1, f) == (c, v)
    ensures Reached(mac, es + [e] + [f], c, uses + Opt(u) + Opt(v))
  {
    Extend(mac, es, a, uses, e, b, u);
    Extend(mac, es + [e], b, uses + Opt(u), f, c, v);
  }

  /** Two logins may both read before either writes. */
  predicate BothMayRead(mac: Mac, a: Account, k: nat, l: nat, now: nat, code: Code) {
    && k != l && k in a.seen && l in a.seen && a.seen[k] == a.seen[l] && Enforced(a.seen[k])
    && |Live(a.attempts, now, TotpHorizon)| <= 3
    && Matched(mac, a.seen[k].key.value, code, now).Some?
    && Matched(mac, a.seen[k].key.value, code, now).value > a.mark
  }

  lemma ReadRead(mac: Mac, a: Account, at: nat, k: nat, l: nat, now: nat, code: Code)
    returns (b: Account, c: Account, s: nat)
    requires BothMayRead(mac, a, k, l, now, code)
    ensures Step(mac, a, at, Read(k, now, code)) == (b, None) && Step(mac, b, at + 1, Read(l, now, code)) == (c, None)
    ensures k in c.pending && c.pending[k] == Pending(at, s, now)
    ensures l in c.pending && c.pending[l] == Pending(at + 1, s, now)
  {
    s := Matched(mac, a.seen[k].key.value, code, now).value;
    RoomForTwo(a.attempts, now);
    ReadStep(mac, a, at, Read(k, now, code));
    b := Step(mac, a, at, Read(k, now, code)).0;
    ReadStep(mac, b, at + 1, Read(l, now, code));
    c := Step(mac, b, at + 1, Read(l, now, code)).0;
  }

  lemma WriteWrite(mac: Mac, a: Account, at: nat, k: nat, l: nat) returns (b: Account, c: Account)
    requires k != l && k in a.pending && l in a.pending
    ensures var (p, q) := (a.pending[k], a.pending[l]);
            && Step(mac, a, at, Write(k)) == (b, Some(Use(true, p.read, at, p.step, p.now)))
            && Step(mac, b, at + 1, Write(l)) == (c, Some(Use(true, q.read, at + 1, q.step, q.now)))
  {
    b := Step(mac, a, at, Write(k)).0;
    c := Step(mac, b, at + 1, Write(l)).0;
  }

  /** After any run, two logins with the same code that both read before either writes consume
      the same step: the monotone write does not stop it. */
  lemma OverlappingLoginsReplay(mac: Mac, es: seq<Event>, k: nat, l: nat, now: nat, code: Code) returns (s: nat)
    requires BothMayRead(mac, After(mac, es), k, l, now, code)
    ensures Uses(mac, es + [Read(k, now, code)] + [Read(l, now, code)] + [Write(k)] + [Write(l)])
            == Uses(mac, es) + [Use(true, |es|, |es| + 2, s, now)] + [Use(true, |es| + 1, |es| + 3, s, now)]
  {
    var a, uses, n := After(mac, es), Uses(mac, es), |es|;
    var fs := es + [Read(k, now, code)] + [Read(l, now, code)];
    var b, c;
    b, c, s := ReadRead(mac, a, n, k, l, now, code);
    ExtendTwice(mac, es, a, uses, Read(k, now, code), Read(l, now, code), b, c, None, None);
    var d, f := WriteWrite(mac, c, n + 2, k, l);
    assert uses + Opt(None) + Opt(None) == uses;
    ExtendTwice(mac, fs, c, uses, Write(k), Write(l), d, f,
                Some(Use(true, n, n + 2, s, now)), Some(Use(true, n + 1, n + 3, s, now)));
  }

  /** The code of the current step, past the first minute, matches some positive step. */
  lemma CurrentCodeMatches(mac: Mac, key: Secret, now: nat) returns (s: nat)
    requires now >= 60
    ensures s > 0 && s + 1 >= now / 30 && s <= now / 30 + 1
    ensures Matched(mac, key, Hotp(mac, key, now / 30), now) == Some(s)
  {
    MatchedMeans(mac, key, Hotp(mac, key, now / 30), now);
    s := Matched(mac, key, Hotp(mac, key, now / 30), now).value;
  }

  /** Setting a key up and enrolling it with the current code, as far as the verified flag. */
  function EnrolStart(mac: Mac, key: Secret, now: nat): seq<Event> {
    KeyLookedUp(key) + [Check(1, now, Hotp(mac, key, now / 30))] + [Verify(1)]
  }

  function KeyLookedUp(key: Secret): seq<Event> {
    [] + [Setup(key)] + [Lookup(1)]
  }

  lemma SetupLookup(mac: Mac, key: Secret)
    ensures var row := Row(Some(key), false);
            Reached(mac, KeyLookedUp(key), Fresh0.(row := row, seen := map[1 := row]), [])
  {
    var row := Row(Some(key), false);
    var a := Fresh0.(row := row);
    assert After(mac, []) == Fresh0 && Uses(mac, []) == [];
    ExtendTwice(mac, [], Fresh0, [], Setup(key), Lookup(1), a, a.(seen := map[1 := row]), None, None);
  }

  lemma CheckVerify(mac: Mac, a: Account, now: nat, code: Code, s: nat) returns (b: Account, c: Account)
    requires a == Fresh0.(row := Row(a.row.key, false), seen := map[1 := a.row]) && a.row.key.Some?
    requires Matched(mac, a.row.key.value, code, now) == Some(s)
    ensures Step(mac, a, 2, Check(1, now, code)) == (b, None) && Step(mac, b, 3, Verify(1)) == (c, None)
    ensures c == Account(Row(a.row.key, true), 0, [now], map[], map[], map[1 := Enrolment(2, s, now, true)])
  {
    assert Live([], now, TotpHorizon) + [now] == [now];
    b := Account(a.row, 0, [now], map[], map[], map[1 := Enrolment(2, s, now, false)]);
    assert a.seen - {1} == map[];
    c := Step(mac, b, 3, Verify(1)).0;
  }

  ghost predicate Marked(mac: Mac, es: seq<Event>, key: Secret, now: nat, s: nat) {
    Reached(mac, es, Account(Row(Some(key), true), 0, [now], map[], map[], map[1 := Enrolment(2, s, now, true)]), [])
  }

  lemma CheckVerifyMarks(mac: Mac, es: seq<Event>, key: Secret, now: nat, code: Code, s: nat)
    requires |es| == 2 && Matched(mac, key, code, now) == Some(s)
    requires var row := Row(Some(key), false); Reached(mac, es, Fresh0.(row := row, seen := map[1 := row]), [])
    ensures Marked(mac, es + [Check(1, now, code)] + [Verify(1)], key, now, s)
  {
    var row := Row(Some(key), false);
    var a := Fresh0.(row := row, seen := map[1 := row]);
    var b, c := CheckVerify(mac, a, now, code, s);
    ExtendTwice(mac, es, a, [], Check(1, now, code), Verify(1), b, c, None, None);
  }

  lemma EnrolStarts(mac: Mac, key: Secret, now: nat, s: nat)
    requires Matched(mac, key, Hotp(mac, key, now / 30), now) == Some(s)
    ensures Marked(mac, EnrolStart(mac, key, now), key, now, s)
  {
    var code := Hotp(mac, key, now / 30);
    SetupLookup(mac, key);
    CheckVerifyMarks(mac, KeyLookedUp(key), key, now, code, s);
  }

  /** Enrolment marks the account verified before it writes the watermark; a login that reads
      between these two writes consumes the enrolment code again. */
  lemma EnrolmentCodeReplays(mac: Mac, key: Secret, now: nat) returns (s: nat)
    requires key != [] && now >= 60
    ensures var code := Hotp(mac, key, now / 30);
            Uses(mac, EnrolStart(mac, key, now) + [Lookup(2)] + [Read(2, now, code)] + [EnrolWrite(1)] + [Write(2)])
            == [Use(false, 2, 6, s, now)] + [Use(true, 5, 7, s, now)]
  {
    var code := Hotp(mac, key, now / 30);
    s := CurrentCodeMatches(mac, key, now);
    EnrolStarts(mac, key, now, s);
    ReadBetweenWrites(mac, EnrolStart(mac, key, now), key, now, code, s);
  }

  lemma ReadBetweenWrites(mac: Mac, es: seq<Event>, key: Secret, now: nat, code: Code, s: nat)
    requires |es| == 4 && key != [] && Marked(mac, es, key, now, s)
    requires s > 0 && Matched(mac, key, code, now) == Some(s)
    ensures Uses(mac, es + [Lookup(2)] + [Read(2, now, code)] + [EnrolWrite(1)] + [Write(2)])
            == [Use(false, 2, 6, s, now)] + [Use(true, 5, 7, s, now)]
  {
    var b := BothOpen(mac, es, key, now, code, s);
    EnrolThenLogin(mac, es + [Lookup(2)] + [Read(2, now, code)], b, s, now);
  }

  /** The login and the enrolment stand where `BothOpen` leaves them. */
  ghost predicate OpenAt(mac: Mac, fs: seq<Event>, b: Account, s: nat, now: nat) {
    && |fs| == 6 && Reached(mac, fs, b, []) && b.mark == 0
    && b.pending == map[2 := Pending(5, s, now)] && b.enrols == map[1 := Enrolment(2, s, now, true)]
  }

  lemma EnrolThenLogin(mac: Mac, fs: seq<Event>, b: Account, s: nat, now: nat)
    requires OpenAt(mac, fs, b, s, now)
    ensures Uses(mac, fs + [EnrolWrite(1)] + [Write(2)]) == [Use(false, 2, 6, s, now)] + [Use(true, 5, 7, s, now)]
  {
    var c, d := EnrolWriteWrite(mac, b, s, now);
    ExtendTwice(mac, fs, b, [], EnrolWrite(1), Write(2), c, d,
                Some(Use(false, 2, 6, s, now)), Some(Use(true, 5, 7, s, now)));
  }

  lemma LoginThenEnrol(mac: Mac, fs: seq<Event>, b: Account, s: nat, now: nat)
    requires OpenAt(mac, fs, b, s, now)
    ensures Uses(mac, fs + [Write(2)] + [EnrolWrite(1)]) == [Use(true, 5, 6, s, now)] + [Use(false, 2, 7, s, now)]
  {
    var c, d := WriteEnrolWrite(mac, b, s, now);
    ExtendTwice(mac, fs, b, [], Write(2), EnrolWrite(1), c, d,
                Some(Use(true, 5, 6, s, now)), Some(Use(false, 2, 7, s, now)));
  }

  /** The same with the last two writes the other way round: the login's UPDATE changes the row,
      but it wrote ahead of the enrolment whose code it repeats. */
  lemma LoginOvertakesEnrolment(mac: Mac, key: Secret, now: nat) returns (s: nat)
    requires key != [] && now >= 60
    ensures var code := Hotp(mac, key, now / 30);
            var run := EnrolStart(mac, key, now) + [Lookup(2)] + [Read(2, now, code)] + [Write(2)] + [EnrolWrite(1)];
            && Uses(mac, run) == [Use(true, 5, 6, s, now)] + [Use(false, 2, 7, s, now)]
            && UpdatesTakeEffect(mac, run) && !EnrolmentsClear(mac, run)
            && !SingleUse(Uses(mac, run), Checks(mac, run))
  {
    var code := Hotp(mac, key, now / 30);
    s := CurrentCodeMatches(mac, key, now);
    EnrolStarts(mac, key, now, s);
    WriteBeforeEnrolment(mac, EnrolStart(mac, key, now), key, now, code, s);
  }

  lemma WriteBeforeEnrolment(mac: Mac, es: seq<Event>, key: Secret, now: nat, code: Code, s: nat)
    requires |es| == 4 && key != [] && Marked(mac, es, key, now, s)
    requires s > 0 && Matched(mac, key, code, now) == Some(s)
    ensures var run := es + [Lookup(2)] + [Read(2, now, code)] + [Write(2)] + [EnrolWrite(1)];
            && Uses(mac, run) == [Use(true, 5, 6, s, now)] + [Use(false, 2, 7, s, now)]
            && UpdatesTakeEffect(mac, run) && !EnrolmentsClear(mac, run)
            && !SingleUse(Uses(mac, run), Checks(mac, run))
  {
    var fs := es + [Lookup(2)] + [Read(2, now, code)];
    var b := BothOpen(mac, es, key, now, code, s);
    LoginThenEnrol(mac, fs, b, s, now);
    NotClear(mac, fs, b, s, now);
    NotSingleUse(mac, fs + [Write(2)] + [EnrolWrite(1)], Use(true, 5, 6, s, now), Use(false, 2, 7, s, now));
  }

  lemma NotSingleUse(mac: Mac, run: seq<Event>, u: Use, v: Use)
    requires Uses(mac, run) == [u] + [v] && !v.login && !EnrolmentsClear(mac, run)
    ensures UpdatesTakeEffect(mac, run) && !SingleUse(Uses(mac, run), Checks(mac, run))
  {
    AscendingIff(mac, run);
    SingleUseIff(mac, run);
  }

  lemma NotClear(mac: Mac, fs: seq<Event>, b: Account, s: nat, now: nat)
    requires OpenAt(mac, fs, b, s, now)
    ensures !EnrolmentsClear(mac, fs + [Write(2)] + [EnrolWrite(1)])
  {
    var gs := fs + [Write(2)];
    assert gs[..|fs|] == fs && (gs + [EnrolWrite(1)])[..|gs|] == gs;
    assert 1 in b.enrols && !ClearOfEnrolments(b, b.pending[2]);
    assert !EnrolmentsClear(mac, gs);
  }

  /** A login that has read while an enrolment has yet to write. */
  lemma BothOpen(mac: Mac, es: seq<Event>, key: Secret, now: nat, code: Code, s: nat) returns (b: Account)
    requires |es| == 4 && key != [] && Marked(mac, es, key, now, s)
    requires s > 0 && Matched(mac, key, code, now) == Some(s)
    ensures OpenAt(mac, es + [Lookup(2)] + [Read(2, now, code)], b, s, now)
  {
    var start := Account(Row(Some(key), true), 0, [now], map[], map[], map[1 := Enrolment(2, s, now, true)]);
    var a: Account;
    a, b := LookupRead(mac, start, now, code, s);
    ExtendTwice(mac, es, start, [], Lookup(2), Read(2, now, code), a, b, None, None);
  }

  lemma LookupRead(mac: Mac, start: Account, now: nat, code: Code, s: nat) returns (a: Account, b: Account)
    requires Enforced(start.row) && start.attempts == [now] && start.mark == 0 && start.pending == map[]
    requires 2 !in start.enrols
    requires s > 0 && Matched(mac, start.row.key.value, code, now) == Some(s)
    ensures Step(mac, start, 4, Lookup(2)) == (a, None) && Step(mac, a, 5, Read(2, now, code)) == (b, None)
    ensures b.pending == map[2 := Pending(5, s, now)] && b.enrols == start.enrols && b.mark == 0
  {
    a := Step(mac, start, 4, Lookup(2)).0;
    OneLiveGuess(now);
    RoomForTwo([now], now);
    ReadStep(mac, a, 5, Read(2, now, code));
    b := Step(mac, a, 5, Read(2, now, code)).0;
  }

  lemma EnrolWriteWrite(mac: Mac, b: Account, s: nat, now: nat) returns (c: Account, d: Account)
    requires b.pending == map[2 := Pending(5, s, now)] && b.enrols == map[1 := Enrolment(2, s, now, true)]
    ensures Step(mac, b, 6, EnrolWrite(1)) == (c, Some(Use(false, 2, 6, s, now)))
    ensures Step(mac, c, 7, Write(2)) == (d, Some(Use(true, 5, 7, s, now)))
  {
    c := Step(mac, b, 6, EnrolWrite(1)).0;
    d := Step(mac, c, 7, Write(2)).0;
  }

  lemma WriteEnrolWrite(mac: Mac, b: Account, s: nat, now: nat) returns (c: Account, d: Account)
    requires b.pending == map[2 := Pending(5, s, now)] && b.enrols == map[1 := Enrolment(2, s, now, true)]
    ensures Step(mac, b, 6, Write(2)) == (c, Some(Use(true, 5, 6, s, now)))
    ensures Step(mac, c, 7, EnrolWrite(1)) == (d, Some(Use(false, 2, 7, s, now)))
  {
    c := Step(mac, b, 6, Write(2)).0;
    d := Step(mac, c, 7, EnrolWrite(1)).0;
  }

  lemma OneLiveGuess(now: nat)
    ensures |Live([now], now, TotpHorizon)| == 1
  {
    assert [now][..0] == [];
  }

  /** A run after which two logins may overlap: an enrolment long done and two requests that have
      looked the account up. */
  function TwoLookups(mac: Mac, key: Secret, then_: nat): seq<Event> {
    EnrolStart(mac, key, then_) + [EnrolWrite(1)] + [Lookup(2)] + [Lookup(3)]
  }

  lemma Enrolled(mac: Mac, key: Secret, then_: nat, s: nat)
    requires Matched(mac, key, Hotp(mac, key, then_ / 30), then_) == Some(s)
    ensures var row := Row(Some(key), true);
            After(mac, TwoLookups(mac, key, then_)) == Account(row, s, [then_], map[2 := row, 3 := row], map[], map[])
  {
    var row := Row(Some(key), true);
    var es := EnrolStart(mac, key, then_);
    var start := Account(row, 0, [then_], map[], map[], map[1 := Enrolment(2, s, then_, true)]);
    EnrolStarts(mac, key, then_, s);
    assert start.enrols - {1} == map[];
    var done := Account(row, s, [then_], map[], map[], map[]);
    var use := Some(Use(false, 2, 4, s, then_));
    Extend(mac, es, start, [], EnrolWrite(1), done, use);
    ExtendTwice(mac, es + [EnrolWrite(1)], done, [] + Opt(use), Lookup(2), Lookup(3),
                done.(seen := map[2 := row]), done.(seen := map[2 := row, 3 := row]), None, None);
  }

  lemma OverlapIsReachable(mac: Mac, key: Secret, then_: nat, now: nat)
    requires key != [] && then_ >= 60 && now >= then_ + 120
    ensures BothMayRead(mac, After(mac, TwoLookups(mac, key, then_)), 2, 3, now, Hotp(mac, key, now / 30))
  {
    var s := CurrentCodeMatches(mac, key, then_);
    var t := CurrentCodeMatches(mac, key, now);
    Enrolled(mac, key, then_, s);
    assert |Live([then_], now, TotpHorizon)| <= 1;
    assert now / 30 >= then_ / 30 + 4;
  }

  // ---------------------------------------------------------------- guesses are bounded

  /** The section looks at a code. */
  predicate LooksAtCode(a: Account, e: Event) {
    || (e.Read? && e.id in a.seen && Enforced(a.seen[e.id]))
    || (e.Check? && e.id in a.seen && a.seen[e.id].key.Some?)
  }

  /** Times of the guesses the limiter let through, never pruned. */
  function Guesses(mac: Mac, es: seq<Event>): seq<nat> {
    if es == [] then []
    else
      var front, e := es[..|es| - 1], es[|es| - 1];
      var a := After(mac, front);
      Guesses(mac, front) + if LooksAtCode(a, e) && Guess(a.attempts, e.now).1 then [e.now] else []
  }

  /** Clock of the latest code check. */
  function Clock(es: seq<Event>): nat {
    if es == [] then 0
    else
      var e := es[|es| - 1];
      if e.Read? || e.Check? then e.now else Clock(es[..|es| - 1])
  }

  predicate ClockForward(es: seq<Event>) {
    es == [] || (ClockForward(es[..|es| - 1]) && Clock(es[..|es| - 1]) <= Clock(es))
  }

  /** From `from` on, the pruned window and the whole history show the same live guesses. */
  ghost predicate Agrees(window: seq<nat>, history: seq<nat>, from: nat) {
    forall later: nat :: from <= later ==> Live(window, later, TotpHorizon) == Live(history, later, TotpHorizon)
  }

  lemma GuessAgrees(window: seq<nat>, history: seq<nat>, now: nat, from: nat)
    requires from <= now && Agrees(window, history, from) && WithinLimit(history, TotpLimit, TotpHorizon)
    ensures var (w, ok) := Guess(window, now);
            var h := if ok then history + [now] else history;
            Agrees(w, h, now) && WithinLimit(h, TotpLimit, TotpHorizon)
  {
    var (w, ok) := Guess(window, now);
    var h := if ok then history + [now] else history;
    assert Live(window, now, TotpHorizon) == Live(history, now, TotpHorizon);
    forall later: nat | now <= later ensures Live(w, later, TotpHorizon) == Live(h, later, TotpHorizon) {
      LiveLater(window, now, later, TotpHorizon);
      LiveAppend(Live(window, now, TotpHorizon), now, later, TotpHorizon);
      LiveAppend(history, now, later, TotpHorizon);
    }
    if ok {
      RecordKeepsLimit(history, now, TotpLimit, TotpHorizon);
    }
  }

  lemma StepGuesses(mac: Mac, a: Account, at: nat, e: Event)
    ensures Step(mac, a, at, e).0.attempts == if LooksAtCode(a, e) then Guess(a.attempts, e.now).0 else a.attempts
  {
  }

  /** No account has more than five codes looked at in any five minutes, over logins and
      enrolments together and whatever other sections run in between. */
  lemma {:induction false} GuessesAreBounded(mac: Mac, es: seq<Event>)
    requires ClockForward(es)
    ensures WithinLimit(Guesses(mac, es), 5, 300)
    ensures Agrees(After(mac, es).attempts, Guesses(mac, es), Clock(es))
  {
    if es != [] {
      var front, e := es[..|es| - 1], es[|es| - 1];
      var a := After(mac, front);
      GuessesAreBounded(mac, front);
      StepGuesses(mac, a, |front|, e);
      assert Guesses(mac, front) + [] == Guesses(mac, front);
      if LooksAtCode(a, e) {
        GuessAgrees(a.attempts, Guesses(mac, front), e.now, Clock(front));
      }
    }
  }

  /** And none is refused before: a guess is looked at exactly when fewer than five lie in the five
      minutes before it. */
  lemma GuessPassesIff(mac: Mac, es: seq<Event>, e: Event)
    requires LooksAtCode(After(mac, es), e) && ClockForward(es) && Clock(es) <= e.now
    ensures Guesses(mac, es + [e])
            == Guesses(mac, es) + if Recent(Guesses(mac, es), e.now, 300) < 5 then [e.now] else []
  {
    GuessesAreBounded(mac, es);
    assert (es + [e])[..|es|] == es;
    LiveAreRecent(Guesses(mac, es), e.now, 300);
    assert Live(After(mac, es).attempts, e.now, 300) == Live(Guesses(mac, es), e.now, 300);
  }

  /** What a login with a code comes to after any run: a step is offered exactly when the row it
      looked up has a verified, non-empty key, fewer than five guesses lie in the last five
      minutes, and some step at most one away from the clock's has this code under that key; the
      earliest such step is the one. */
  lemma OfferedIff(mac: Mac, es: seq<Event>, e: Event, s: nat)
    requires ClockForward(es) && e.Read? && Clock(es) <= e.now && e.id in After(mac, es).seen
    ensures var row := After(mac, es).seen[e.id];
            Offered(mac, After(mac, es), e) == Some(s) <==>
              && row.verified && row.key.Some? && row.key.value != []
              && Recent(Guesses(mac, es), e.now, 300) < 5
              && CodeOf(mac, row.key.value, e.code, e.now, s)
              && forall earlier: nat :: earlier < s ==> !CodeOf(mac, row.key.value, e.code, e.now, earlier)
  {
    var a := After(mac, es);
    var row := a.seen[e.id];
    GuessesAreBounded(mac, es);
    LiveAreRecent(Guesses(mac, es), e.now, 300);
    assert Live(a.attempts, e.now, 300) == Live(Guesses(mac, es), e.now, 300);
    if row.key.Some? {
      MatchedMeans(mac, row.key.value, e.code, e.now);
      MatchedIsEarliest(mac, row.key.value, e.code, e.now, s);
    }
  }

  /** The code of a step at most one away from the clock's. */
  predicate CodeOf(mac: Mac, secret: Secret, code: Code, now: nat, step: nat) {
    now / 30 <= step + 1 && step <= now / 30 + 1 && Hotp(mac, secret, step) == code
  }

  lemma MatchedIsCode(mac: Mac, secret: Secret, code: Code, now: nat)
    ensures match Matched(mac, secret, code, now)
            case None => forall s: nat :: !CodeOf(mac, secret, code, now, s)
            case Some(s) => CodeOf(mac, secret, code, now, s)
  {
    MatchedMeans(mac, secret, code, now);
  }

  lemma MatchedIsEarliest(mac: Mac, secret: Secret, code: Code, now: nat, s: nat)
    ensures Matched(mac, secret, code, now) == Some(s) <==>
              && CodeOf(mac, secret, code, now, s)
              && forall earlier: nat :: earlier < s ==> !CodeOf(mac, secret, code, now, earlier)
  {
    MatchedMeans(mac, secret, code, now);
    var r := Matched(mac, secret, code, now);
    if CodeOf(mac, secret, code, now, s) && r.Some? {
      assert CodeOf(mac, secret, code, now, r.value);
    }
  }

  // ---------------------------------------------------------------- the account's own sections

  /** An enrolment with nothing in between: what its four events come to. */
  lemma EnrolmentAlone(mac: Mac, v: Account, now: nat, code: Code)
    returns (checked: Account, done: Account, use: Option<Use>)
    requires v == Account(v.row, v.mark, v.attempts, map[], map[], map[])
    ensures checked == Step(mac, Step(mac, v, 0, Lookup(0)).0, 1, Check(0, now, code)).0
    ensures (done, use) == Step(mac, Step(mac, checked, 2, Verify(0)).0, 3, EnrolWrite(0))
    ensures v.row.key.None? ==> use.None? && done.(seen := map[]) == v
    ensures v.row.key.Some? ==>
              var (attempts, step) := Attempted(mac, v.attempts, now, v.row.key.value, code);
              if step.None? then use.None? && done.(seen := map[]) == v.(attempts := attempts)
              else use == Some(Use(false, 1, 3, step.value, now))
                   && done.(seen := map[]) == v.(attempts := attempts, row := v.row.(verified := true),
                                                 mark := Advance(v.mark, step.value))
  {
    var looked := Step(mac, v, 0, Lookup(0)).0;
    assert looked == v.(seen := map[0 := v.row]);
    checked := Step(mac, looked, 1, Check(0, now, code)).0;
    var marked := Step(mac, checked, 2, Verify(0)).0;
    done := Step(mac, marked, 3, EnrolWrite(0)).0;
    use := Step(mac, marked, 3, EnrolWrite(0)).1;
  }

  datatype Outcome = NotAsked | CodeRequired | NoSetup | Limited | InvalidCode | AlreadyUsed | Accepted(step: nat)

  class User {
    var row: Row
    var attempts: seq<nat>
    var lastStep: nat

    constructor ()
      ensures View() == Fresh0
    {
      row, attempts, lastStep := Row(None, false), [], 0;
    }

    /** The account between requests. */
    function View(): Account
      reads this
    {
      Account(row, lastStep, attempts, map[], map[], map[])
    }

    method CheckTotpRateLimit(now: nat) returns (ok: bool)
      modifies this`attempts
      ensures (attempts, ok) == Guess(old(attempts), now)
    {
      attempts := PruneWindow(attempts, now, TotpHorizon);
      if |attempts| >= TotpLimit {
        return false;
      }
      attempts := attempts + [now];
      return true;
    }

    method SetTotpLastStep(step: nat)
      modifies this`lastStep
      ensures lastStep == Advance(old(lastStep), step)
      ensures old(lastStep) <= lastStep && step <= lastStep
    {
      if lastStep < step {
        lastStep := step;
      }
    }

    /** The login branch with no other section in between: a lookup, a read and a write. Whether
        a code was asked for and what became of it tells which of them took place. */
    method Login(mac: Mac, now: nat, code: Option<Code>) returns (outcome: Outcome)
      modifies this
      ensures var asked := old(row).verified && old(row).key.Some? && old(row).key.value != [];
              && (outcome.NotAsked? <==> !asked)
              && (outcome.CodeRequired? <==> asked && code.None?)
              && (outcome.Limited? <==> asked && code.Some? && Recent(old(attempts), now, 300) >= 5)
              && (outcome.Accepted? ==> code.Some? && CodeOf(mac, old(row).key.value, code.value, now, outcome.step))
              && (outcome.InvalidCode? ==>
                    code.Some? && forall s: nat :: !CodeOf(mac, old(row).key.value, code.value, now, s))
      ensures code.None? || outcome.NotAsked? ==> View() == old(View())
      ensures code.Some? ==>
                var seen := Step(mac, old(View()), 0, Lookup(0)).0;
                var (done, use) := Step(mac, Step(mac, seen, 1, Read(0, now, code.value)).0, 2, Write(0));
                && View() == done.(seen := map[])
                && (outcome.Accepted? <==> use.Some?)
                && (use.Some? ==> outcome == Accepted(use.value.step) && old(lastStep) < lastStep == outcome.step)
    {
      if row.key.None? || !row.verified || row.key.value == [] {
        return NotAsked;
      }
      if code.None? {
        return CodeRequired;
      }
      LiveAreRecent(attempts, now, 300);
      var ok := CheckTotpRateLimit(now);
      if !ok {
        return Limited;
      }
      var step := VerifyTotpSecretStep(mac, row.key.value, code.value, now);
      MatchedIsCode(mac, row.key.value, code.value, now);
      if step.None? {
        return InvalidCode;
      }
      if step.value <= lastStep {
        return AlreadyUsed;
      }
      SetTotpLastStep(step.value);
      return Accepted(step.value);
    }

    /** Enrolment with no other section in between: a lookup, the check, the flag, the write. */
    method Create(mac: Mac, now: nat, code: Code) returns (outcome: Outcome)
      modifies this
      ensures outcome.NoSetup? <==> old(row).key.None?
      ensures var checked := Step(mac, Step(mac, old(View()), 0, Lookup(0)).0, 1, Check(0, now, code)).0;
              var (done, use) := Step(mac, Step(mac, checked, 2, Verify(0)).0, 3, EnrolWrite(0));
              && View() == done.(seen := map[])
              && (outcome.Accepted? <==> use.Some?)
              && (use.Some? ==> outcome == Accepted(use.value.step) && row.verified && outcome.step <= lastStep)
    {
      ghost var checked, done, use := EnrolmentAlone(mac, View(), now, code);
      if row.key.None? {
        return NoSetup;
      }
      var ok := CheckTotpRateLimit(now);
      if !ok {
        return Limited;
      }
      var step := VerifyTotpSecretStep(mac, row.key.value, code, now);
      if step.None? {
        return InvalidCode;
      }
      row := row.(verified := true);
      SetTotpLastStep(step.value);
      return Accepted(step.value);
    }
  }

  /** The three candidates in order, each compared in constant time. */
  method VerifyTotpSecretStep(mac: Mac, secret: Secret, code: Code, now: nat) returns (r: Option<nat>)
    ensures r == Matched(mac, secret, code, now)
  {
    if !WellFormed(code) {
      return None;
    }
    var steps := Candidates(now);
    for i := 0 to |steps|
      invariant FirstMatch(mac, secret, code, steps) == FirstMatch(mac, secret, code, steps[i..])
    {
      var same := CtEq(Hotp(mac, secret, steps[i]), code);
      if same {
        return Some(steps[i]);
      }
      assert steps[i..][1..] == steps[i + 1..];
    }
    return None;
  }
}
