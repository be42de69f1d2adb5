/** Bounded random integers by rejection sampling: exact uniformity over 64-bit words, and where
    the signed arithmetic of the ranges gives out. */
module Rng {
  import opened Text

  const Words: nat := 0x1_0000_0000_0000_0000
  const I64Max: int := 0x7fff_ffff_ffff_ffff
  const I64Min: int := -0x8000_0000_0000_0000

  type Word = n: nat | n < Words
  type I64 = n: int | I64Min <= n <= I64Max witness 0

  // ---------------------------------------------------------------- one bounded draw

  /** bound.wrapping_neg() % bound */
  function RejectBelow(bound: Word): nat
    requires bound > 0
  {
    (Words - bound) % bound
  }

  predicate Accepted(bound: Word, x: Word)
    requires bound > 0
  {
    RejectBelow(bound) <= x
  }

  /** How many words are consumed before the first accepted one. */
  function FirstAccepted(bound: Word, words: seq<Word>): (r: Option<nat>)
    requires bound > 0
    ensures r.Some? ==> r.value < |words| && Accepted(bound, words[r.value])
    ensures r.Some? ==> forall i :: 0 <= i < r.value ==> !Accepted(bound, words[i])
    ensures r.None? ==> forall i :: 0 <= i < |words| ==> !Accepted(bound, words[i])
  {
    if words == [] then None
    else if Accepted(bound, words[0]) then Some(0)
    else
      match FirstAccepted(bound, words[1..])
      case None => None
      case Some(i) => Some(i + 1)
  }

  datatype Draw = Drew(value: nat, used: nat) | Starved | ZeroBound

  /** The loop over the word stream: it ends at the first accepted word, and only starves on a
      stream without one. */
  method U64Below(bound: Word, words: seq<Word>) returns (d: Draw)
    ensures d.ZeroBound? <==> bound == 0
    ensures bound > 0 ==>
              match FirstAccepted(bound, words)
              case None => d == Starved
              case Some(i) => d == Drew(words[i] % bound, i + 1)
  {
    if bound == 0 {
      return ZeroBound;
    }
    var rejectBelow := (Words - bound) % bound;
    for i := 0 to |words|
      invariant forall j :: 0 <= j < i ==> !Accepted(bound, words[j])
    {
      if words[i] >= rejectBelow {
        return Drew(words[i] % bound, i + 1);
      }
    }
    return Starved;
  }

  // ---------------------------------------------------------------- uniformity

  lemma SmallMultiple(d: nat, k: int)
    requires d > 0 && -(d as int) < d * k < d
    ensures k == 0
  {
  }

  lemma DivModUnique(v: nat, d: nat, q: nat, r: nat)
    requires r < d && v == d * q + r
    ensures v % d == r && v / d == q
  {
    assert v == d * (v / d) + v % d;
    assert d * (q - v / d) == v % d - r;
    SmallMultiple(d, q - v / d);
  }

  /** The rejected zone is 2^64 mod bound, the accepted one a whole number of bounds. */
  lemma RejectIsRemainder(bound: Word)
    requires bound > 0
    ensures RejectBelow(bound) == Words % bound
    ensures Words == RejectBelow(bound) + bound * (Words / bound)
  {
    var q, r := (Words - bound) / bound, RejectBelow(bound);
    assert Words - bound == bound * q + r;
    assert Words == bound * (q + 1) + r;
    DivModUnique(Words, bound, q + 1, r);
  }

  /** Fewer than half of all words are rejected. */
  lemma FewerThanHalfRejected(bound: Word)
    requires bound > 0
    ensures 2 * RejectBelow(bound) < Words
  {
    RejectIsRemainder(bound);
    assert Words / bound >= 1;
    assert bound * (Words / bound) >= bound;
  }

  /** The words of a range that leave remainder r. */
  function Hits(lo: nat, hi: nat, bound: nat, r: nat): set<nat>
    requires bound > 0
  {
    set x: nat | lo <= x < hi && x % bound == r
  }

  /** The one word of a block of `bound` that leaves remainder r. */
  function Hit(s: nat, bound: nat, r: nat): (x: nat)
    requires r < bound
    ensures s <= x < s + bound && x % bound == r
  {
    var q, m := s / bound, s % bound;
    assert s == bound * q + m;
    if r >= m then
      DivModUnique(s + (r - m), bound, q, r);
      s + (r - m)
    else
      assert s + (r - m + bound) == bound * (q + 1) + r;
      DivModUnique(s + (r - m + bound), bound, q + 1, r);
      s + (r - m + bound)
  }

  lemma HitIsUnique(s: nat, bound: nat, r: nat, x: nat)
    requires r < bound && s <= x < s + bound && x % bound == r
    ensures x == Hit(s, bound, r)
  {
    var y := Hit(s, bound, r);
    assert x == bound * (x / bound) + r && y == bound * (y / bound) + r;
    assert bound * (x / bound - y / bound) == x - y;
    SmallMultiple(bound, x / bound - y / bound);
  }

  /** n whole blocks hold each remainder exactly n times. */
  lemma {:induction false} BlocksAreUniform(lo: nat, n: nat, bound: nat, r: nat)
    requires r < bound
    ensures |Hits(lo, lo + bound * n, bound, r)| == n
  {
    if n == 0 {
      assert Hits(lo, lo + bound * n, bound, r) == {};
    } else {
      var mid := lo + bound * (n - 1);
      assert lo + bound * n == mid + bound;
      BlocksAreUniform(lo, n - 1, bound, r);
      var before, after := Hits(lo, mid, bound, r), Hits(lo, mid + bound, bound, r);
      assert lo <= mid;
      forall x | x in after ensures x in before || x == Hit(mid, bound, r) {
        if x >= mid {
          HitIsUnique(mid, bound, r, x);
        }
      }
      assert after == before + {Hit(mid, bound, r)};
    }
  }

  /** The accepted words that a draw maps to r. */
  function Preimage(bound: Word, r: nat): set<nat>
    requires bound > 0
  {
    Hits(RejectBelow(bound), Words, bound, r)
  }

  /** Exact uniformity: every result below the bound comes from exactly floor(2^64 / bound)
      accepted words. */
  lemma Uniform(bound: Word, r: nat)
    requires r < bound
    ensures |Preimage(bound, r)| == Words / bound
  {
    RejectIsRemainder(bound);
    BlocksAreUniform(RejectBelow(bound), Words / bound, bound, r);
  }

  // ---------------------------------------------------------------- signed ranges

  /** How a range call ends; an overflowing i64 addition panics in a build with overflow checks
      and wraps in one without. */
  datatype Range = InRange(value: I64, used: nat) | Starves | Panics

  function AsI64(k: Word): I64 {
    if k > I64Max then k - Words else k
  }

  function WrapI64(n: int): I64 {
    AsI64(n % Words)
  }

  predicate Overflows(n: int) {
    !(I64Min <= n <= I64Max)
  }

  /** Adding a draw as an i64 overflows exactly from 2^63 on, and wrapping then gives the plain
      sum after all. */
  lemma SumOfDraw(lo: I64, k: Word)
    requires lo + k <= I64Max
    ensures Overflows(lo + AsI64(k)) <==> k > I64Max
    ensures WrapI64(lo + AsI64(k)) == lo + k
  {
    var n := lo + AsI64(k);
    if lo + k >= 0 {
      assert n % Words == lo + k;
    } else {
      assert n % Words == lo + k + Words;
    }
  }

  /** What a range call means: the first accepted word, offset from lo. */
  function Incl(lo: I64, hi: I64, checked: bool, words: seq<Word>): (r: Range)
    ensures r.InRange? ==> lo <= r.value <= hi
  {
    var span := hi - lo + 1;
    if lo > hi || span == Words then Panics
    else
      match FirstAccepted(span, words)
      case None => Starves
      case Some(i) =>
        if checked && words[i] % span > I64Max then Panics else InRange(lo + words[i] % span, i + 1)
  }

  method AddDraw(lo: I64, d: Draw, checked: bool) returns (r: Range)
    requires d.Drew? ==> d.value < Words && lo + d.value <= I64Max
    ensures match d
            case Drew(k, used) => r == if checked && k > I64Max then Panics else InRange(lo + k, used)
            case Starved => r == Starves
            case ZeroBound => r == Panics
  {
    match d
    case Drew(k, used) =>
      SumOfDraw(lo, k);
      var sum := lo + AsI64(k);
      if checked && Overflows(sum) {
        return Panics;
      }
      return InRange(WrapI64(sum), used);
    case Starved =>
      return Starves;
    case ZeroBound =>
      return Panics;
  }

  /** The i128 span cast to u64. */
  function AsU64(n: nat): (r: Word)
    requires n <= Words
    ensures r == if n == Words then 0 else n
  {
    n % Words
  }

  method RangeInclI64(lo: I64, hi: I64, checked: bool, words: seq<Word>) returns (r: Range)
    ensures r == Incl(lo, hi, checked, words)
  {
    if lo > hi {
      return Panics;
    }
    var span := AsU64(hi - lo + 1);
    var d := U64Below(span, words);
    r := AddDraw(lo, d, checked);
  }

  /** The half-open range is the closed one below hi. */
  method RangeExclI64(lo: I64, hi: I64, checked: bool, words: seq<Word>) returns (r: Range)
    ensures r == if lo >= hi then Panics else Incl(lo, hi - 1, checked, words)
  {
    if lo >= hi {
      return Panics;
    }
    var span := AsU64(hi - lo);
    var d := U64Below(span, words);
    r := AddDraw(lo, d, checked);
  }

  /** The words that make a range call return v at once. */
  function Draws(lo: I64, hi: I64, checked: bool, v: I64): set<Word> {
    set x: Word | 0 <= x < Words && Incl(lo, hi, checked, [x]) == InRange(v, 1)
  }

  lemma OneWord(lo: I64, hi: I64, checked: bool, x: Word)
    requires lo <= hi && hi - lo + 1 < Words
    ensures Incl(lo, hi, checked, [x])
            == if !Accepted(hi - lo + 1, x) then Starves
               else if checked && x % (hi - lo + 1) > I64Max then Panics
               else InRange(lo + x % (hi - lo + 1), 1)
  {
    assert FirstAccepted(hi - lo + 1, [x]) == if Accepted(hi - lo + 1, x) then Some(0) else None;
  }

  /** How many words make a range call return v, for every build, range and value: as many as
      for any other value, except that a build with overflow checks never returns a value 2^63
      or more above lo. */
  lemma DrawsOf(lo: I64, hi: I64, checked: bool, v: I64)
    requires lo <= v <= hi && hi - lo + 1 < Words
    ensures |Draws(lo, hi, checked, v)| == if checked && v - lo > I64Max then 0 else Words / (hi - lo + 1)
  {
    var span := hi - lo + 1;
    forall x: Word ensures x in Draws(lo, hi, checked, v) <==>
                             x in Preimage(span, v - lo) && !(checked && v - lo > I64Max)
    {
      OneWord(lo, hi, checked, x);
    }
    if checked && v - lo > I64Max {
      assert Draws(lo, hi, checked, v) == {};
    } else {
      assert Draws(lo, hi, checked, v) == Preimage(span, v - lo);
      Uniform(span, v - lo);
    }
  }

  /** Where the call cannot panic every value of the range is equally likely. */
  lemma RangeIsUniform(lo: I64, hi: I64, checked: bool, v: I64)
    requires lo <= v <= hi && hi - lo + 1 < Words
    requires !checked || hi - lo + 1 <= I64Max + 1
    ensures |Draws(lo, hi, checked, v)| == Words / (hi - lo + 1)
  {
    DrawsOf(lo, hi, checked, v);
  }

  /** A checked build is uniform exactly up to a span of 2^63: beyond it the top value never comes. */
  lemma UniformIff(lo: I64, hi: I64, checked: bool)
    requires lo <= hi && hi - lo + 1 < Words
    ensures (forall v: I64 :: lo <= v <= hi ==> |Draws(lo, hi, checked, v)| == Words / (hi - lo + 1))
            <==> !checked || hi - lo + 1 <= I64Max + 1
  {
    var span: Word := hi - lo + 1;
    if !checked || span <= I64Max + 1 {
      forall v: I64 | lo <= v <= hi ensures |Draws(lo, hi, checked, v)| == Words / span {
        RangeIsUniform(lo, hi, checked, v);
      }
    } else {
      DrawsOf(lo, hi, checked, hi);
      RejectIsRemainder(span);
      assert RejectBelow(span) < span < Words;
      assert Words / span != 0;
    }
  }

  /** The accepted zone holds at least one word for every result. */
  lemma SomeWordDraws(bound: Word, r: nat) returns (x: Word)
    requires r < bound
    ensures Accepted(bound, x) && x % bound == r
  {
    RejectIsRemainder(bound);
    FewerThanHalfRejected(bound);
    AtLeastOnce(bound, Words / bound);
    x := Hit(RejectBelow(bound), bound, r);
  }

  lemma AtLeastOnce(bound: Word, n: nat)
    requires 0 < bound && Words == RejectBelow(bound) + bound * n
    ensures RejectBelow(bound) + bound <= Words
  {
    assert RejectBelow(bound) < bound;
    assert n == 0 ==> bound * n == 0;
    assert n >= 1 ==> bound * n >= bound;
  }

  lemma WideRangePanics(lo: I64, hi: I64) returns (words: seq<Word>)
    requires I64Max + 1 < hi - lo + 1
    ensures Incl(lo, hi, true, words).Panics?
  {
    var span := hi - lo + 1;
    if span == Words {
      words := [];
    } else {
      var x := SomeWordDraws(span, span - 1);
      words := [x];
      assert FirstAccepted(span, words) == Some(0);
    }
  }

  lemma NarrowRangeNeverPanics(lo: I64, hi: I64, words: seq<Word>)
    requires 1 <= hi - lo + 1 <= I64Max + 1
    ensures !Incl(lo, hi, true, words).Panics?
  {
  }

  /** In a build with overflow checks some word stream makes the call panic exactly when the range
      spans more than 2^63 values. */
  lemma PanicsIffWide(lo: I64, hi: I64)
    requires lo <= hi
    ensures (exists words: seq<Word> :: Incl(lo, hi, true, words).Panics?) <==> hi - lo + 1 > I64Max + 1
  {
    if hi - lo + 1 > I64Max + 1 {
      var words := WideRangePanics(lo, hi);
    } else {
      forall words: seq<Word> ensures !Incl(lo, hi, true, words).Panics? {
        NarrowRangeNeverPanics(lo, hi, words);
      }
    }
  }

  /** Without overflow checks only the whole i64 range fails, where the span wraps to zero. */
  lemma UncheckedPanicsIffWhole(lo: I64, hi: I64, words: seq<Word>)
    requires lo <= hi
    ensures Incl(lo, hi, false, words).Panics? <==> (lo == I64Min && hi == I64Max)
  {
  }

  /** A call waits for ever only on a stream that never offers an accepted word. */
  lemma StarvesIffAllRejected(lo: I64, hi: I64, checked: bool, words: seq<Word>)
    requires lo <= hi && hi - lo + 1 < Words
    ensures Incl(lo, hi, checked, words).Starves?
            <==> forall i :: 0 <= i < |words| ==> words[i] < Words % (hi - lo + 1)
  {
    RejectIsRemainder(hi - lo + 1);
  }
}
