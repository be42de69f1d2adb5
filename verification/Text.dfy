/** Small string vocabulary shared by the parsers: options, character classes,
    searching, trimming and decimal numerals, with the laws the parsers rely on. */
module Text {

  datatype Option<+T> = None | Some(value: T)

  /** Unicode White_Space, the class behind Rust's char::is_whitespace. */
  predicate IsSpace(c: char) {
    var n := c as int;
    9 <= n <= 13 || n == 0x20 || n == 0x85 || n == 0xA0 || n == 0x1680 || 0x2000 <= n <= 0x200A
    || n == 0x2028 || n == 0x2029 || n == 0x202F || n == 0x205F || n == 0x3000
  }

  predicate IsDigit(c: char) {
    '0' <= c <= '9'
  }

  predicate AllDigits(s: string) {
    forall i :: 0 <= i < |s| ==> IsDigit(s[i])
  }

  predicate NoSpace(s: string) {
    forall i :: 0 <= i < |s| ==> !IsSpace(s[i])
  }

  function TrimStart(s: string): (r: string) {
    if s != [] && IsSpace(s[0]) then TrimStart(s[1..]) else s
  }

  function TrimEnd(s: string): (r: string) {
    if s != [] && IsSpace(s[|s| - 1]) then TrimEnd(s[..|s| - 1]) else s
  }

  function Trim(s: string): string {
    TrimEnd(TrimStart(s))
  }

  lemma TrimNothing(s: string)
    requires NoSpace(s)
    ensures Trim(s) == s
  {
  }

  /** Index of the first occurrence of c. */
  function Find(s: string, c: char): (r: Option<nat>)
    ensures r.Some? ==> r.value < |s| && s[r.value] == c && c !in s[..r.value]
    ensures r.None? ==> c !in s
  {
    if s == [] then None
    else if s[0] == c then Some(0)
    else
      var rest := Find(s[1..], c);
      if rest.None? then None
      else
        assert s[..rest.value + 1] == [s[0]] + s[1..][..rest.value];
        Some(rest.value + 1)
  }

  /** Index of the last occurrence of c. */
  function RFind(s: string, c: char): (r: Option<nat>)
    ensures r.Some? ==> r.value < |s| && s[r.value] == c && c !in s[r.value + 1..]
    ensures r.None? ==> c !in s
  {
    if s == [] then None
    else if s[|s| - 1] == c then Some(|s| - 1)
    else
      var rest := RFind(s[..|s| - 1], c);
      if rest.None? then
        assert s == s[..|s| - 1] + [s[|s| - 1]];
        None
      else
        assert s[rest.value + 1..] == s[..|s| - 1][rest.value + 1..] + [s[|s| - 1]];
        rest
  }

  function Count(s: string, c: char): (n: nat)
    ensures n == 0 <==> c !in s
  {
    if s == [] then 0 else (if s[0] == c then 1 else 0) + Count(s[1..], c)
  }

  lemma {:induction false} CountAppend(a: string, b: string, c: char)
    ensures Count(a + b, c) == Count(a, c) + Count(b, c)
  {
    if a == [] {
      assert a + b == b;
    } else {
      assert (a + b)[1..] == a[1..] + b;
      CountAppend(a[1..], b, c);
    }
  }

  predicate HasSuffix(s: string, suffix: string) {
    |suffix| <= |s| && s[|s| - |suffix|..] == suffix
  }

  function DropLast(s: string, n: nat): string
    requires n <= |s|
  {
    s[..|s| - n]
  }

  // ---------------------------------------------------------------- numerals

  function DigitValue(c: char): (d: nat)
    requires IsDigit(c)
    ensures d < 10
  {
    (c as int) - ('0' as int)
  }

  function DigitChar(d: nat): (c: char)
    requires d < 10
    ensures IsDigit(c) && DigitValue(c) == d
  {
    ('0' as int + d) as char
  }

  /** Value of a run of decimal digits. */
  function DigitsValue(s: string): nat
    requires AllDigits(s)
  {
    if s == [] then 0 else DigitsValue(s[..|s| - 1]) * 10 + DigitValue(s[|s| - 1])
  }

  /** The canonical decimal numeral of n. */
  function Decimal(n: nat): (s: string)
    ensures s != [] && AllDigits(s)
  {
    if n < 10 then [DigitChar(n)] else Decimal(n / 10) + [DigitChar(n % 10)]
  }

  lemma {:induction false} DecimalValue(n: nat)
    ensures DigitsValue(Decimal(n)) == n
  {
    if n < 10 {
      assert Decimal(n)[..0] == [];
    } else {
      DecimalValue(n / 10);
      var s := Decimal(n);
      assert s[..|s| - 1] == Decimal(n / 10);
    }
  }

  /** Rust's unsigned from_str: an optional '+', then at least one digit, then the
      width check. */
  function ParseUnsigned(s: string, max: nat): (r: Option<nat>)
    ensures r.Some? ==> r.value <= max
  {
    var body := if |s| > 1 && s[0] == '+' then s[1..] else s;
    if body == [] || !AllDigits(body) then None
    else if DigitsValue(body) > max then None
    else Some(DigitsValue(body))
  }

  lemma ParseDecimal(n: nat, max: nat)
    requires n <= max
    ensures ParseUnsigned(Decimal(n), max) == Some(n)
  {
    DecimalValue(n);
    assert IsDigit(Decimal(n)[0]);
  }

  // ---------------------------------------------------------------- anchors

  /** ASCII white space is space, tab and the line breaks; nothing that can stand in an address, a
      port or a name is. */
  lemma SpaceIsSpace(c: char)
    requires (c as int) < 128
    ensures IsSpace(c) <==> c == ' ' || c == '\t' || c == '\n' || c == '\r' || c as int == 11 || c as int == 12
  {
  }

  predicate AllSpace(s: string) {
    forall i :: 0 <= i < |s| ==> IsSpace(s[i])
  }

  lemma {:induction false} TrimStartDrops(pre: string, s: string)
    requires AllSpace(pre) && (s == [] || !IsSpace(s[0]))
    ensures TrimStart(pre + s) == s
  {
    if pre == [] {
      assert pre + s == s;
    } else {
      assert (pre + s)[1..] == pre[1..] + s;
      TrimStartDrops(pre[1..], s);
    }
  }

  lemma {:induction false} TrimEndDrops(s: string, post: string)
    requires AllSpace(post) && (s == [] || !IsSpace(s[|s| - 1]))
    ensures TrimEnd(s + post) == s
  {
    if post == [] {
      assert s + post == s;
    } else {
      assert (s + post)[..|s + post| - 1] == s + post[..|post| - 1];
      TrimEndDrops(s, post[..|post| - 1]);
    }
  }

  /** Trimming takes off exactly the white space on both sides. */
  lemma TrimDrops(pre: string, s: string, post: string)
    requires AllSpace(pre) && AllSpace(post) && s != [] && !IsSpace(s[0]) && !IsSpace(s[|s| - 1])
    ensures Trim(pre + s + post) == s
  {
    assert pre + s + post == pre + (s + post);
    TrimStartDrops(pre, s + post);
    TrimEndDrops(s, post);
  }

  lemma BlankTrimsAway(s: string)
    requires AllSpace(s)
    ensures Trim(s) == []
  {
    TrimStartDrops(s, []);
    assert s + [] == s;
  }

  /** A numeral is one or more digits, with leading zeros and one plus sign allowed, whose value is
      in range. */
  lemma ParseUnsignedIff(s: string, max: nat, v: nat)
    ensures ParseUnsigned(s, max) == Some(v) <==>
              exists digits :: (s == digits || s == "+" + digits) && digits != [] && AllDigits(digits)
                               && DigitsValue(digits) == v && v <= max
  {
    var body := if |s| > 1 && s[0] == '+' then s[1..] else s;
    if ParseUnsigned(s, max) == Some(v) {
      assert s == body || s == "+" + body;
      assert body != [] && AllDigits(body) && DigitsValue(body) == v;
    }
    if digits :| (s == digits || s == "+" + digits) && digits != [] && AllDigits(digits)
                 && DigitsValue(digits) == v && v <= max
    {
      assert IsDigit(digits[0]);
      if s != digits {
        assert s[1..] == digits;
      }
      assert body == digits;
    }
  }

  lemma NumeralsReadLeftToRight()
    ensures AllDigits("0805") && DigitsValue("0805") == 805
  {
    var s := "0805";
    assert s[..3] == "080" && s[..3][..2] == "08" && s[..3][..2][..1] == "0" && s[..3][..2][..1][..0] == "";
    assert DigitsValue("0") == 0 && DigitsValue("08") == 8 && DigitsValue("080") == 80;
  }
}
