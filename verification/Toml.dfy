/** Printing strings into the daemon's TOML configuration, against a reader of one-line arrays of
    basic strings (sections String and Array of TOML v1.0.0). */
module Toml {
  import opened Text

  // ---------------------------------------------------------------- the printer

  function HexChar(d: nat): char
    requires d < 16
  {
    if d < 10 then ('0' as int + d) as char else ('A' as int + d - 10) as char
  }

  /** {:04X} */
  function Hex4(n: nat): string
    requires n < 0x1_0000
  {
    [HexChar(n / 0x1000), HexChar(n / 0x100 % 16), HexChar(n / 16 % 16), HexChar(n % 16)]
  }

  function Escaped(c: char): string {
    if c == '\\' then "\\\\"
    else if c == '"' then "\\\""
    else if c == '\n' then "\\n"
    else if c == '\r' then "\\r"
    else if c == '\t' then "\\t"
    else if (c as int) < 0x20 then "\\u" + Hex4(c as int)
    else [c]
  }

  function EscapedAll(s: string): string {
    if s == [] then [] else Escaped(s[0]) + EscapedAll(s[1..])
  }

  function Quoted(s: string): string {
    "\"" + EscapedAll(s) + "\""
  }

  /** The items from the second on, each behind its separator, and the closing bracket. */
  function Tail(items: seq<string>): string {
    if items == [] then "]" else ", " + Quoted(items[0]) + Tail(items[1..])
  }

  function Printed(items: seq<string>): string {
    if items == [] then "[]" else "[" + Quoted(items[0]) + Tail(items[1..])
  }

  lemma Behind(a: string, b: string, c: string)
    ensures a + b + c == a + (b + c)
  {
  }

  method TomlString(s: string) returns (out: string)
    ensures out == Quoted(s)
  {
    out := "\"";
    assert s[0..] == s;
    for i := 0 to |s|
      invariant out + EscapedAll(s[i..]) == "\"" + EscapedAll(s)
    {
      Behind(out, Escaped(s[i]), EscapedAll(s[i + 1..]));
      assert s[i..][1..] == s[i + 1..];
      out := out + Escaped(s[i]);
    }
    out := out + "\"";
  }

  method TomlStringArray(items: seq<string>) returns (out: string)
    ensures out == Printed(items)
  {
    out := "[";
    assert items[0..] == items;
    for i := 0 to |items|
      invariant i == 0 ==> out == "["
      invariant i > 0 ==> out + Tail(items[i..]) == Printed(items)
    {
      assert items[i..][1..] == items[i + 1..];
      if i > 0 {
        out := out + ", ";
      }
      var quoted := TomlString(items[i]);
      out := out + quoted;
    }
    out := out + "]";
  }

  // ---------------------------------------------------------------- the reader

  function HexValue(c: char): Option<nat> {
    if '0' <= c <= '9' then Some(c as int - '0' as int)
    else if 'A' <= c <= 'F' then Some(c as int - 'A' as int + 10)
    else if 'a' <= c <= 'f' then Some(c as int - 'a' as int + 10)
    else None
  }

  function HexRun(s: string): Option<nat> {
    if s == [] then Some(0)
    else
      match (HexRun(s[..|s| - 1]), HexValue(s[|s| - 1]))
      case (Some(high), Some(low)) => Some(high * 16 + low)
      case _ => None
  }

  /** A Unicode scalar value. */
  predicate IsScalar(n: nat) {
    n < 0xD800 || 0xE000 <= n < 0x11_0000
  }

  function CodePoint(digits: string): Option<char> {
    match HexRun(digits)
    case None => None
    case Some(n) => if IsScalar(n) then Some(n as char) else None
  }

  datatype Read<T> = Bad | Read(value: T, rest: string)

  /** One escape sequence, after its backslash. */
  function ReadEscape(s: string): (r: Read<char>)
    ensures r.Read? ==> |r.rest| < |s|
  {
    if s == [] then Bad
    else if s[0] == 'b' then Read(8 as char, s[1..])
    else if s[0] == 't' then Read('\t', s[1..])
    else if s[0] == 'n' then Read('\n', s[1..])
    else if s[0] == 'f' then Read(12 as char, s[1..])
    else if s[0] == 'r' then Read('\r', s[1..])
    else if s[0] == '"' then Read('"', s[1..])
    else if s[0] == '\\' then Read('\\', s[1..])
    else
      var n := if s[0] == 'u' then 4 else 8;
      if s[0] !in "uU" || |s| <= n then Bad
      else
        match CodePoint(s[1..n + 1])
        case None => Bad
        case Some(c) => Read(c, s[n + 1..])
  }

  /** basic-unescaped: no control character but tab, no quote, no backslash, no U+007F. */
  predicate Unescaped(c: char) {
    (c == '\t' || (c as int) >= 0x20) && c != '"' && c != '\\' && c as int != 0x7F
  }

  /** A basic string after its opening quote, up to the closing one. */
  function ReadBody(s: string): (r: Read<string>)
    ensures r.Read? ==> |r.rest| < |s|
  {
    if s == [] then Bad
    else if s[0] == '"' then Read("", s[1..])
    else
      var first := if s[0] == '\\' then ReadEscape(s[1..]) else if Unescaped(s[0]) then Read(s[0], s[1..]) else Bad;
      match first
      case Bad => Bad
      case Read(c, rest) =>
        Prefixed(c, ReadBody(rest))
  }

  function Prefixed(c: char, r: Read<string>): (p: Read<string>)
    ensures p.Read? <==> r.Read?
    ensures p.Read? ==> p.rest == r.rest
  {
    match r
    case Bad => Bad
    case Read(more, rest) => Read([c] + more, rest)
  }

  function SkipBlanks(s: string): (r: string)
    ensures |r| <= |s|
  {
    if s != [] && (s[0] == ' ' || s[0] == '\t') then SkipBlanks(s[1..]) else s
  }

  /** The elements up to the closing bracket; a trailing comma is allowed. */
  function ReadItems(s: string): (r: Read<seq<string>>)
    decreases |s|
  {
    if s == [] then Bad
    else if s[0] == ']' then Read([], s[1..])
    else if s[0] != '"' then Bad
    else
      match ReadBody(s[1..])
      case Bad => Bad
      case Read(item, rest) => ReadOn(item, rest)
  }

  /** What may come behind an element. */
  function ReadOn(item: string, s: string): (r: Read<seq<string>>)
    decreases |s|
  {
    var next := SkipBlanks(s);
    if next == [] then Bad
    else if next[0] == ']' then Read([item], next[1..])
    else if next[0] != ',' then Bad
    else
      match ReadItems(SkipBlanks(next[1..]))
      case Bad => Bad
      case Read(more, rest) => Read([item] + more, rest)
  }

  function ReadArray(s: string): Read<seq<string>> {
    if s == [] || s[0] != '[' then Bad else ReadItems(SkipBlanks(s[1..]))
  }

  // ---------------------------------------------------------------- the round trip

  predicate Printable(s: string) {
    forall i :: 0 <= i < |s| ==> s[i] as int != 0x7F
  }

  lemma HexRoundTrip(d: nat)
    requires d < 16
    ensures HexValue(HexChar(d)) == Some(d)
  {
  }

  lemma Hex4Value(n: nat)
    requires n < 0x20
    ensures HexRun(Hex4(n)) == Some(n)
  {
    var h := Hex4(n);
    HexRoundTrip(n / 16 % 16);
    HexRoundTrip(n % 16);
    assert HexRun(h[..0]) == Some(0);
    assert h[..1][..0] == h[..0] && HexRun(h[..1]) == Some(0);
    assert h[..2][..1] == h[..1] && HexRun(h[..2]) == Some(0);
    assert h[..3][..2] == h[..2] && HexRun(h[..3]) == Some(n / 16);
    assert h[..4][..3] == h[..3] && h[..4] == h;
  }

  lemma ControlEscape(c: char, rest: string)
    requires (c as int) < 0x20
    ensures ReadEscape("u" + Hex4(c as int) + rest) == Read(c, rest)
  {
    var s := "u" + Hex4(c as int) + rest;
    Hex4Value(c as int);
    assert s[1..5] == Hex4(c as int) && s[5..] == rest;
  }

  lemma ReadRaw(c: char, rest: string)
    requires Escaped(c) == [c]
    ensures ReadBody([c] + rest) == if c as int == 0x7F then Bad else Prefixed(c, ReadBody(rest))
  {
    assert ([c] + rest)[1..] == rest;
  }

  lemma ReadEscaped(c: char, escape: string, rest: string)
    requires ReadEscape(escape + rest) == Read(c, rest)
    ensures ReadBody("\\" + escape + rest) == Prefixed(c, ReadBody(rest))
  {
    assert ("\\" + escape + rest)[1..] == escape + rest;
  }

  lemma ShortEscape(c: char, rest: string)
    requires c in "\\\"\n\r\t"
    ensures ReadBody(Escaped(c) + rest) == Prefixed(c, ReadBody(rest))
  {
    var escape := [Escaped(c)[1]];
    assert (escape + rest)[1..] == rest;
    ReadEscaped(c, escape, rest);
    assert Escaped(c) == "\\" + escape;
  }

  lemma LongEscape(c: char, rest: string)
    requires (c as int) < 0x20 && c !in "\n\r\t"
    ensures ReadBody(Escaped(c) + rest) == Prefixed(c, ReadBody(rest))
  {
    ControlEscape(c, rest);
    ReadEscaped(c, "u" + Hex4(c as int), rest);
    assert Escaped(c) == "\\" + ("u" + Hex4(c as int));
  }

  /** One printed character is read back as itself, unless it is U+007F, which no reader takes. */
  lemma ReadOne(c: char, rest: string)
    ensures ReadBody(Escaped(c) + rest) == if c as int == 0x7F then Bad else Prefixed(c, ReadBody(rest))
  {
    if c in "\\\"\n\r\t" {
      ShortEscape(c, rest);
    } else if (c as int) < 0x20 {
      LongEscape(c, rest);
    } else {
      ReadRaw(c, rest);
    }
  }

  lemma {:induction false} BodyRoundTrip(s: string, rest: string)
    ensures ReadBody(EscapedAll(s) + "\"" + rest) == if Printable(s) then Read(s, rest) else Bad
  {
    if s == [] {
      assert "" + "\"" + rest == "\"" + rest;
    } else {
      BodyRoundTrip(s[1..], rest);
      ReadOne(s[0], EscapedAll(s[1..]) + "\"" + rest);
      assert EscapedAll(s) + "\"" + rest == Escaped(s[0]) + (EscapedAll(s[1..]) + "\"" + rest);
      assert s == [s[0]] + s[1..];
      assert Printable(s) <==> s[0] as int != 0x7F && Printable(s[1..]);
    }
  }

  predicate AllPrintable(items: seq<string>) {
    forall i :: 0 <= i < |items| ==> Printable(items[i])
  }

  lemma OpenQuote(t: string)
    ensures ReadItems("\"" + t) == match ReadBody(t)
                                  case Bad => Bad
                                  case Read(item, rest) => ReadOn(item, rest)
  {
    assert ("\"" + t)[1..] == t;
  }

  lemma QuotedShape(item: string, follow: string)
    ensures Quoted(item) + follow == "\"" + (EscapedAll(item) + "\"" + follow)
  {
  }

  lemma ReadFirst(item: string, follow: string)
    ensures ReadItems(Quoted(item) + follow) == if Printable(item) then ReadOn(item, follow) else Bad
  {
    QuotedShape(item, follow);
    OpenQuote(EscapedAll(item) + "\"" + follow);
    BodyRoundTrip(item, follow);
  }

  /** The items behind the first, as a separator and an array body. */
  lemma TailShape(items: seq<string>, rest: string) returns (next: string)
    requires items != []
    ensures next == Quoted(items[0]) + (Tail(items[1..]) + rest)
    ensures next != [] && next[0] == '"' && Tail(items) + rest == ", " + next
  {
    next := Quoted(items[0]) + (Tail(items[1..]) + rest);
    Behind(", ", Quoted(items[0]), Tail(items[1..]));
    Behind(", ", Quoted(items[0]) + Tail(items[1..]), rest);
    Behind(Quoted(items[0]), Tail(items[1..]), rest);
  }

  lemma ReadLast(item: string, rest: string)
    ensures ReadOn(item, "]" + rest) == Read([item], rest)
  {
    assert SkipBlanks("]" + rest) == "]" + rest && ("]" + rest)[1..] == rest;
  }

  lemma ReadSeparator(item: string, next: string)
    requires next != [] && next[0] == '"'
    ensures ReadOn(item, ", " + next)
            == match ReadItems(next)
               case Bad => Bad
               case Read(more, rest) => Read([item] + more, rest)
  {
    var s := ", " + next;
    assert SkipBlanks(s) == s;
    assert s[1..] == " " + next && (" " + next)[1..] == next;
    assert SkipBlanks(s[1..]) == SkipBlanks(next) == next;
  }

  /** A quoted item and the separators and items behind it, as the reader sees them. */
  lemma {:induction false} ItemsRoundTrip(items: seq<string>, rest: string)
    requires items != []
    ensures ReadItems(Quoted(items[0]) + (Tail(items[1..]) + rest))
            == if AllPrintable(items) then Read(items, rest) else Bad
  {
    var more := items[1..];
    ReadFirst(items[0], Tail(more) + rest);
    assert AllPrintable(items) <==> Printable(items[0]) && AllPrintable(more);
    assert items == [items[0]] + more;
    if more == [] {
      assert Tail(more) == "]" && [items[0]] + more == [items[0]];
      ReadLast(items[0], rest);
    } else {
      ItemsRoundTrip(more, rest);
      var next := TailShape(more, rest);
      ReadSeparator(items[0], next);
    }
  }

  lemma ReadOpening(body: string)
    requires body != [] && body[0] == '"'
    ensures ReadArray("[" + body) == ReadItems(body)
  {
    assert ("[" + body)[1..] == body && SkipBlanks(body) == body;
  }

  /** Round trip: whatever quotes, backslashes or control characters the items hold, and whatever
      text follows, the printed array is read back as exactly the items and no item reaches past
      its own literal. This holds exactly when no item contains U+007F, which the printer leaves
      raw and TOML forbids. */
  lemma RoundTrip(items: seq<string>, rest: string)
    ensures ReadArray(Printed(items) + rest) == if AllPrintable(items) then Read(items, rest) else Bad
  {
    var s := Printed(items) + rest;
    if items == [] {
      assert s[1..] == "]" + rest && s[1..][1..] == rest;
      assert SkipBlanks(s[1..]) == s[1..];
    } else {
      var body := Quoted(items[0]) + (Tail(items[1..]) + rest);
      Behind("[", Quoted(items[0]), Tail(items[1..]));
      Behind("[", Quoted(items[0]) + Tail(items[1..]), rest);
      Behind(Quoted(items[0]), Tail(items[1..]), rest);
      assert s == "[" + body;
      ReadOpening(body);
      ItemsRoundTrip(items, rest);
    }
  }

  /** Different lists never print alike. */
  lemma PrintedIsInjective(items: seq<string>, others: seq<string>)
    requires AllPrintable(items) && AllPrintable(others) && Printed(items) == Printed(others)
    ensures items == others
  {
    RoundTrip(items, "");
    RoundTrip(others, "");
  }

  predicate OneLine(s: string) {
    forall i :: 0 <= i < |s| ==> (s[i] as int) >= 0x20
  }

  lemma EscapedIsOneLine(c: char)
    ensures OneLine(Escaped(c))
  {
  }

  lemma {:induction false} EscapedAllIsOneLine(s: string)
    ensures OneLine(EscapedAll(s))
  {
    if s != [] {
      EscapedIsOneLine(s[0]);
      EscapedAllIsOneLine(s[1..]);
    }
  }

  lemma {:induction false} TailIsOneLine(items: seq<string>)
    ensures OneLine(Tail(items))
  {
    if items != [] {
      EscapedAllIsOneLine(items[0]);
      TailIsOneLine(items[1..]);
    }
  }

  /** The output is one line: no line break or other control character, whatever the items hold. */
  lemma PrintedIsOneLine(items: seq<string>)
    ensures OneLine(Printed(items))
  {
    if items != [] {
      EscapedAllIsOneLine(items[0]);
      TailIsOneLine(items[1..]);
    }
  }
}
