/** The base32 codec for TOTP secrets: the 32-bit shift buffer of both loops against the bit
    strings of section 6 of RFC 4648, without padding. */
module Base32 {
  import opened Text

  type Byte = n: nat | n < 256
  type Quintet = n: nat | n < 32
  type Bits = seq<bool>

  const Wrap: nat := 0x1_0000_0000

  // ---------------------------------------------------------------- bit strings

  function Pow2(k: nat): (p: nat)
    ensures p > 0
  {
    if k == 0 then 1 else 2 * Pow2(k - 1)
  }

  /** The low n bits of v, most significant first. */
  function BitsOf(v: nat, n: nat): (b: Bits)
    ensures |b| == n
  {
    if n == 0 then [] else BitsOf(v / 2, n - 1) + [v % 2 == 1]
  }

  function Value(b: Bits): (v: nat)
    ensures v < Pow2(|b|)
  {
    if b == [] then 0 else 2 * Value(b[..|b| - 1]) + if b[|b| - 1] then 1 else 0
  }

  function Zeros(n: nat): (b: Bits)
    ensures |b| == n
  {
    seq(n, _ => false)
  }

  lemma {:induction false} BitsOfValue(b: Bits)
    ensures BitsOf(Value(b), |b|) == b
  {
    if b != [] {
      BitsOfValue(b[..|b| - 1]);
      assert Value(b) / 2 == Value(b[..|b| - 1]);
    }
  }

  lemma {:induction false} ValueOfBits(v: nat, n: nat)
    requires v < Pow2(n)
    ensures Value(BitsOf(v, n)) == v
  {
    if n > 0 {
      ValueOfBits(v / 2, n - 1);
      assert BitsOf(v, n)[..n - 1] == BitsOf(v / 2, n - 1);
    }
  }

  /** v << k on unbounded numbers. */
  function Shl(v: nat, k: nat): nat {
    if k == 0 then v else 2 * Shl(v, k - 1)
  }

  function Shr(v: nat, k: nat): nat {
    if k == 0 then v else Shr(v / 2, k - 1)
  }

  /** Shifting left and adding puts the k bits of b behind the bits of v. */
  lemma {:induction false} BitsJoin(v: nat, b: nat, n: nat, k: nat)
    requires b < Pow2(k)
    ensures BitsOf(Shl(v, k) + b, n + k) == BitsOf(v, n) + BitsOf(b, k)
  {
    if k > 0 {
      assert (Shl(v, k) + b) / 2 == Shl(v, k - 1) + b / 2;
      BitsJoin(v, b / 2, n, k - 1);
    }
  }

  /** Bits above the n-th do not show in the low n. */
  lemma {:induction false} LowBits(v: nat, b: nat, n: nat, m: nat)
    requires n <= m
    ensures BitsOf(Shl(v, m) + b, n) == BitsOf(b, n)
  {
    if n > 0 {
      assert (Shl(v, m) + b) / 2 == Shl(v, m - 1) + b / 2;
      LowBits(v, b / 2, n - 1, m - 1);
    }
  }

  lemma {:induction false} ZeroBits(n: nat)
    ensures BitsOf(0, n) == Zeros(n)
  {
    if n > 0 {
      ZeroBits(n - 1);
    }
  }

  /** v >> k keeps the high bits. */
  lemma {:induction false} BitsSplit(v: nat, m: nat, k: nat)
    ensures BitsOf(v, m + k) == BitsOf(Shr(v, k), m) + BitsOf(v, k)
  {
    if k > 0 {
      BitsSplit(v / 2, m, k - 1);
    }
  }

  lemma {:induction false} ShlTwice(v: nat, j: nat, k: nat)
    ensures Shl(v, j + k) == Shl(Shl(v, j), k)
  {
    if k > 0 {
      ShlTwice(v, j, k - 1);
    }
  }

  lemma ShlFixed(v: nat)
    ensures Shl(v, 5) == 32 * v && Shl(v, 8) == 256 * v
  {
    assert Shl(v, 1) == 2 * v;
    assert Shl(v, 2) == 4 * v;
    assert Shl(v, 4) == 16 * v;
    assert Shl(v, 6) == 64 * v;
  }

  lemma ShlWord(v: nat)
    ensures Shl(v, 32) == Wrap * v
  {
    ShlTwice(v, 8, 8);
    ShlTwice(v, 16, 16);
    ShlTwice(Shl(v, 16), 8, 8);
    ShlFixed(v);
    ShlFixed(256 * v);
    ShlFixed(0x1_0000 * v);
    ShlFixed(0x100_0000 * v);
  }

  lemma Masks(v: nat)
    ensures BitsOf(v % 32, 5) == BitsOf(v, 5) && BitsOf(v % 256, 8) == BitsOf(v, 8)
  {
    ShlFixed(v / 32);
    LowBits(v / 32, v % 32, 5, 5);
    ShlFixed(v / 256);
    LowBits(v / 256, v % 256, 8, 8);
  }

  lemma WrapKeeps(v: nat, n: nat)
    requires n <= 32
    ensures BitsOf(v % Wrap, n) == BitsOf(v, n)
  {
    ShlWord(v / Wrap);
    LowBits(v / Wrap, v % Wrap, n, 32);
  }

  lemma PowFixed()
    ensures Pow2(5) == 32 && Pow2(8) == 256
  {
    assert Pow2(3) == 8 && Pow2(6) == 64;
  }

  // ---------------------------------------------------------------- the 32-bit buffer

  type Word = n: nat | n < Wrap

  /** (buf << k) | v in 32 bits; the low k bits of the shifted word are free. */
  function Push(buf: Word, v: nat, k: nat): Word {
    (Shl(buf, k) + v) % Wrap
  }

  /** Pushing k bits onto the n live ones loses none while n + k fits the word. */
  lemma PushBits(buf: Word, v: nat, n: nat, k: nat)
    requires v < Pow2(k) && n + k <= 32
    ensures BitsOf(Push(buf, v, k), n + k) == BitsOf(buf, n) + BitsOf(v, k)
  {
    WrapKeeps(Shl(buf, k) + v, n + k);
    BitsJoin(buf, v, n, k);
  }

  // ---------------------------------------------------------------- the codec on bit strings

  function BytesBits(bytes: seq<Byte>): Bits {
    if bytes == [] then [] else BitsOf(bytes[0], 8) + BytesBits(bytes[1..])
  }

  function QuintetsBits(qs: seq<Quintet>): Bits {
    if qs == [] then [] else BitsOf(qs[0], 5) + QuintetsBits(qs[1..])
  }

  /** Cut into fives, the last one filled up with zeros. */
  function Quintets(b: Bits): seq<Quintet> {
    if b == [] then []
    else if |b| < 5 then [Five(b + Zeros(5 - |b|))]
    else [Five(b[..5])] + Quintets(b[5..])
  }

  /** Cut into eights, a shorter rest dropped. */
  function Octets(b: Bits): seq<Byte> {
    if |b| < 8 then [] else [Eight(b[..8])] + Octets(b[8..])
  }

  function Five(b: Bits): Quintet
    requires |b| == 5
  {
    PowFixed();
    Value(b)
  }

  function Eight(b: Bits): Byte
    requires |b| == 8
  {
    PowFixed();
    Value(b)
  }

  // ---------------------------------------------------------------- characters

  function CharOf(q: Quintet): char {
    if q < 26 then ('A' as int + q) as char else ('2' as int + q - 26) as char
  }

  predicate Skipped(c: char) {
    c == '=' || IsSpace(c)
  }

  function ValueOf(c: char): Option<Quintet> {
    if 'A' <= c <= 'Z' then Some(c as int - 'A' as int)
    else if 'a' <= c <= 'z' then Some(c as int - 'a' as int)
    else if '2' <= c <= '7' then Some(26 + (c as int - '2' as int))
    else None
  }

  function Chars(qs: seq<Quintet>): string {
    if qs == [] then [] else [CharOf(qs[0])] + Chars(qs[1..])
  }

  /** The values of the characters that count; None at the first foreign one. */
  function Payload(s: string): Option<seq<Quintet>> {
    if s == [] then Some([])
    else if Skipped(s[0]) then Payload(s[1..])
    else
      match ValueOf(s[0])
      case None => None
      case Some(v) =>
        match Payload(s[1..])
        case None => None
        case Some(rest) => Some([v] + rest)
  }

  function Encoded(bytes: seq<Byte>): string {
    Chars(Quintets(BytesBits(bytes)))
  }

  function Decoded(s: string): Option<seq<Byte>> {
    match Payload(s)
    case None => None
    case Some(qs) => Some(Octets(QuintetsBits(qs)))
  }

  // ---------------------------------------------------------------- the loops

  lemma TakeBits(buf: Word, bits: nat, k: nat, rest: Bits)
    ensures BitsOf(buf, bits + k) + rest == BitsOf(Shr(buf, bits), k) + (BitsOf(buf, bits) + rest)
  {
    BitsSplit(buf, k, bits);
  }

  lemma TakeFive(buf: Word, bits: nat, rest: Bits)
    ensures Quintets(BitsOf(buf, bits + 5) + rest) == [Shr(buf, bits) % 32] + Quintets(BitsOf(buf, bits) + rest)
  {
    TakeBits(buf, bits, 5, rest);
    Masks(Shr(buf, bits));
    CutFive(Shr(buf, bits) % 32, BitsOf(buf, bits) + rest);
  }

  lemma CutFive(q: Quintet, rest: Bits)
    ensures Quintets(BitsOf(q, 5) + rest) == [q] + Quintets(rest)
  {
    PowFixed();
    ValueOfBits(q, 5);
    var b := BitsOf(q, 5) + rest;
    assert b[..5] == BitsOf(q, 5) && b[5..] == rest;
  }

  lemma TakeEight(buf: Word, bits: nat, rest: Bits)
    ensures Octets(BitsOf(buf, bits + 8) + rest) == [Shr(buf, bits) % 256] + Octets(BitsOf(buf, bits) + rest)
  {
    TakeBits(buf, bits, 8, rest);
    Masks(Shr(buf, bits));
    CutEight(Shr(buf, bits) % 256, BitsOf(buf, bits) + rest);
  }

  lemma CutEight(q: Byte, rest: Bits)
    ensures Octets(BitsOf(q, 8) + rest) == [q] + Octets(rest)
  {
    PowFixed();
    ValueOfBits(q, 8);
    var b := BitsOf(q, 8) + rest;
    assert b[..8] == BitsOf(q, 8) && b[8..] == rest;
  }

  lemma TakeLast(buf: Word, bits: nat)
    requires 0 < bits < 5
    ensures Quintets(BitsOf(buf, bits)) == [Push(buf, 0, 5 - bits) % 32]
  {
    var q := Push(buf, 0, 5 - bits);
    PushBits(buf, 0, bits, 5 - bits);
    ZeroBits(5 - bits);
    Masks(q);
    PowFixed();
    ValueOfBits(q % 32, 5);
  }

  /** What is still to be written after the live bits of the buffer. */
  function Pending(buf: Word, bits: nat, rest: Bits): Bits {
    BitsOf(buf, bits) + rest
  }

  lemma PushByte(buf: Word, bits: nat, bytes: seq<Byte>, i: nat)
    requires i < |bytes| && bits < 5
    ensures Pending(buf, bits, BytesBits(bytes[i..]))
            == Pending(Push(buf, bytes[i], 8), bits + 8, BytesBits(bytes[i + 1..]))
  {
    PowFixed();
    assert bytes[i..][1..] == bytes[i + 1..];
    PushBits(buf, bytes[i], bits, 8);
  }

  lemma PushQuintet(buf: Word, bits: nat, q: Quintet, qs: seq<Quintet>)
    requires bits < 8
    ensures Pending(buf, bits, QuintetsBits([q] + qs)) == Pending(Push(buf, q, 5), bits + 5, QuintetsBits(qs))
  {
    PowFixed();
    assert ([q] + qs)[1..] == qs;
    PushBits(buf, q, bits, 5);
  }

  lemma Idle(buf: Word, b: Bits)
    ensures Pending(buf, 0, b) == b && Pending(buf, 0, []) == []
  {
    assert [] + b == b;
  }

  lemma CharsCons(q: Quintet, qs: seq<Quintet>)
    ensures Chars([q] + qs) == [CharOf(q)] + Chars(qs)
  {
    assert ([q] + qs)[1..] == qs;
  }

  /** What encoding will have written, given the live bits and the bits to come. */
  function Written(out: string, buf: Word, bits: nat, rest: Bits): string {
    out + Chars(Quintets(Pending(buf, bits, rest)))
  }

  lemma WrittenAll(buf: Word, bytes: seq<Byte>)
    ensures Written("", buf, 0, BytesBits(bytes)) == Encoded(bytes)
  {
    Idle(buf, BytesBits(bytes));
  }

  lemma WrittenTake(out: string, buf: Word, bits: nat, rest: Bits)
    ensures Written(out, buf, bits + 5, rest) == Written(out + [CharOf(Shr(buf, bits) % 32)], buf, bits, rest)
  {
    TakeFive(buf, bits, rest);
    CharsCons(Shr(buf, bits) % 32, Quintets(Pending(buf, bits, rest)));
  }

  lemma WrittenEnd(out: string, buf: Word, bits: nat)
    requires bits < 5
    ensures Written(out, buf, bits, []) == if bits == 0 then out else out + [CharOf(Push(buf, 0, 5 - bits) % 32)]
  {
    if bits == 0 {
      Idle(buf, []);
    } else {
      assert Pending(buf, bits, []) == BitsOf(buf, bits);
      TakeLast(buf, bits);
      CharsCons(Push(buf, 0, 5 - bits) % 32, []);
      var q := Push(buf, 0, 5 - bits) % 32;
      assert [q] + [] == [q] && [CharOf(q)] + Chars([]) == [CharOf(q)];
    }
  }

  /** base32_encode: the truncating buffer never loses a live bit. */
  method Encode(bytes: seq<Byte>) returns (out: string)
    ensures out == Encoded(bytes)
  {
    out := "";
    var buf: Word, bits := 0, 0;
    WrittenAll(buf, bytes);
    assert bytes[0..] == bytes;
    for i := 0 to |bytes|
      invariant 0 <= bits < 5
      invariant Encoded(bytes) == Written(out, buf, bits, BytesBits(bytes[i..]))
    {
      ghost var rest := BytesBits(bytes[i + 1..]);
      PushByte(buf, bits, bytes, i);
      buf := Push(buf, bytes[i], 8);
      bits := bits + 8;
      while bits >= 5
        invariant 0 <= bits < 13
        invariant Encoded(bytes) == Written(out, buf, bits, rest)
      {
        bits := bits - 5;
        WrittenTake(out, buf, bits, rest);
        out := out + [CharOf(Shr(buf, bits) % 32)];
      }
    }
    WrittenEnd(out, buf, bits);
    if bits > 0 {
      out := out + [CharOf(Push(buf, 0, 5 - bits) % 32)];
    }
  }

  /** What decoding still has to add to `out`, given the live bits and the unread characters. */
  function Remaining(out: seq<Byte>, buf: Word, bits: nat, s: string): Option<seq<Byte>> {
    match Payload(s)
    case None => None
    case Some(qs) => Some(out + Octets(Pending(buf, bits, QuintetsBits(qs))))
  }

  lemma RemainingAll(buf: Word, s: string)
    ensures Remaining([], buf, 0, s) == Decoded(s)
  {
    if Payload(s).Some? {
      var bits := QuintetsBits(Payload(s).value);
      Idle(buf, bits);
      assert [] + Octets(bits) == Octets(bits);
    }
  }

  lemma RemainingNone(out: seq<Byte>, buf: Word, bits: nat)
    requires bits < 8
    ensures Remaining(out, buf, bits, "") == Some(out)
  {
    assert Octets(Pending(buf, bits, [])) == [];
    assert out + [] == out;
  }

  lemma RemainingPush(out: seq<Byte>, buf: Word, bits: nat, s: string, q: Quintet)
    requires s != [] && bits < 8 && !Skipped(s[0]) && ValueOf(s[0]) == Some(q)
    ensures Remaining(out, buf, bits, s) == Remaining(out, Push(buf, q, 5), bits + 5, s[1..])
  {
    if Payload(s[1..]).Some? {
      PushQuintet(buf, bits, q, Payload(s[1..]).value);
    }
  }

  lemma RemainingTake(out: seq<Byte>, buf: Word, bits: nat, s: string)
    ensures Remaining(out, buf, bits + 8, s) == Remaining(out + [Shr(buf, bits) % 256], buf, bits, s)
  {
    if Payload(s).Some? {
      var rest := QuintetsBits(Payload(s).value);
      TakeEight(buf, bits, rest);
      var b := Shr(buf, bits) % 256;
      assert out + ([b] + Octets(Pending(buf, bits, rest))) == out + [b] + Octets(Pending(buf, bits, rest));
    }
  }

  /** base32_decode. */
  method Decode(s: string) returns (r: Option<seq<Byte>>)
    ensures r == Decoded(s)
  {
    var out: seq<Byte>, buf: Word, bits := [], 0, 0;
    assert s[0..] == s;
    RemainingAll(buf, s);
    for i := 0 to |s|
      invariant 0 <= bits < 8
      invariant Decoded(s) == Remaining(out, buf, bits, s[i..])
    {
      assert s[i..][1..] == s[i + 1..];
      if !Skipped(s[i]) {
        var v := ValueOf(s[i]);
        if v.None? {
          return None;
        }
        RemainingPush(out, buf, bits, s[i..], v.value);
        buf := Push(buf, v.value, 5);
        bits := bits + 5;
        if bits >= 8 {
          bits := bits - 8;
          RemainingTake(out, buf, bits, s[i + 1..]);
          out := out + [Shr(buf, bits) % 256];
        }
      }
    }
    RemainingNone(out, buf, bits);
    return Some(out);
  }

  // ---------------------------------------------------------------- the alphabet

  const ALPHABET: string := "ABCDEFGHIJKLMNOPQRSTUVWXYZ234567"

  /** Quintet q is written as the q-th character of the alphabet. */
  lemma AlphabetAt(q: Quintet)
    ensures |ALPHABET| == 32 && CharOf(q) == ALPHABET[q]
  {
    if q < 8 {
      assert q == 0 || q == 1 || q == 2 || q == 3 || q == 4 || q == 5 || q == 6 || q == 7;
    } else if q < 16 {
      assert q == 8 || q == 9 || q == 10 || q == 11 || q == 12 || q == 13 || q == 14 || q == 15;
    } else if q < 24 {
      assert q == 16 || q == 17 || q == 18 || q == 19 || q == 20 || q == 21 || q == 22 || q == 23;
    } else {
      assert q == 24 || q == 25 || q == 26 || q == 27 || q == 28 || q == 29 || q == 30 || q == 31;
    }
  }

  /** What a string may hold for its decoding to go through. */
  predicate Readable(c: char) {
    c == '=' || IsSpace(c) || 'A' <= c <= 'Z' || 'a' <= c <= 'z' || '2' <= c <= '7'
  }

  /** A string decodes exactly when it holds nothing but letters, the digits 2 to 7, padding and
      whitespace. */
  lemma {:induction false} DecodesIff(s: string)
    ensures Decoded(s).Some? <==> forall i :: 0 <= i < |s| ==> Readable(s[i])
  {
    if s != [] {
      DecodesIff(s[1..]);
      assert forall i :: 1 <= i < |s| ==> s[i] == s[1..][i - 1];
      assert forall i :: 0 <= i < |s[1..]| ==> s[1..][i] == s[i + 1];
    }
  }

  /** Bit j of an n-bit number, counted from the most significant. */
  predicate Bit(v: nat, n: nat, j: nat)
    requires j < n
  {
    Shr(v, n - 1 - j) % 2 == 1
  }

  lemma {:induction false} BitsAt(v: nat, n: nat, j: nat)
    requires j < n
    ensures BitsOf(v, n)[j] == Bit(v, n, j)
  {
    if j < n - 1 {
      BitsAt(v / 2, n - 1, j);
    }
  }

  lemma {:induction false} BytesBitsAt(bytes: seq<Byte>, i: nat, j: nat)
    requires i < |bytes| && j < 8
    ensures |BytesBits(bytes)| == 8 * |bytes| && BytesBits(bytes)[8 * i + j] == Bit(bytes[i], 8, j)
  {
    BytesBitsLength(bytes);
    if i == 0 {
      BitsAt(bytes[0], 8, j);
    } else {
      BytesBitsAt(bytes[1..], i - 1, j);
    }
  }

  lemma {:induction false} QuintetsBitsAt(qs: seq<Quintet>, i: nat, j: nat)
    requires i < |qs| && j < 5
    ensures |QuintetsBits(qs)| == 5 * |qs| && QuintetsBits(qs)[5 * i + j] == Bit(qs[i], 5, j)
  {
    QuintetsOfBits(qs);
    if i == 0 {
      BitsAt(qs[0], 5, j);
    } else {
      QuintetsBitsAt(qs[1..], i - 1, j);
    }
  }

  lemma {:induction false} CharsAt(qs: seq<Quintet>, i: nat)
    requires i < |qs|
    ensures |Chars(qs)| == |qs| && Chars(qs)[i] == CharOf(qs[i])
  {
    CharsLength(qs);
    if i > 0 {
      CharsAt(qs[1..], i - 1);
    }
  }

  /** What the text says, bit by bit: the characters are those of the alphabet, five bits each, and
      in order their bits are the bits of the bytes, eight each and most significant first, with
      zeros after the last. */
  lemma EncodedBits(bytes: seq<Byte>, i: nat, j: nat, q: Quintet)
    requires i < |Encoded(bytes)| && j < 5 && Encoded(bytes)[i] == ALPHABET[q]
    ensures var k := 5 * i + j;
            Bit(q, 5, j) <==> k / 8 < |bytes| && Bit(bytes[k / 8], 8, k % 8)
  {
    var b := BytesBits(bytes);
    var qs := Quintets(b);
    var k := 5 * i + j;
    CharsLength(qs);
    CharsAt(qs, i);
    AlphabetAt(q);
    CharsDecode(q);
    CharsDecode(qs[i]);
    QuintetsBitsAt(qs, i, j);
    QuintetsKeepBits(b);
    BytesBitsLength(bytes);
    assert Bit(q, 5, j) == (b + Zeros(PadOf(|b|)))[k];
    if k / 8 < |bytes| {
      BytesBitsAt(bytes, k / 8, k % 8);
      assert 8 * (k / 8) + k % 8 == k;
    }
  }

  // ---------------------------------------------------------------- the round trip

  lemma CharsDecode(q: Quintet)
    ensures !Skipped(CharOf(q)) && ValueOf(CharOf(q)) == Some(q)
  {
  }

  lemma {:induction false} PayloadOfChars(qs: seq<Quintet>)
    ensures Payload(Chars(qs)) == Some(qs)
  {
    if qs != [] {
      CharsDecode(qs[0]);
      PayloadOfChars(qs[1..]);
      assert Chars(qs)[1..] == Chars(qs[1..]);
      assert qs == [qs[0]] + qs[1..];
    }
  }

  function PadOf(n: nat): nat {
    if n % 5 == 0 then 0 else 5 - n % 5
  }

  lemma FiveBits(b: Bits)
    requires |b| == 5
    ensures BitsOf(Five(b), 5) == b
  {
    BitsOfValue(b);
  }

  lemma EightBits(b: Bits)
    requires |b| == 8
    ensures BitsOf(Eight(b), 8) == b
  {
    BitsOfValue(b);
  }

  lemma BitsCons(q: Quintet, qs: seq<Quintet>)
    ensures QuintetsBits([q] + qs) == BitsOf(q, 5) + QuintetsBits(qs)
  {
    assert ([q] + qs)[1..] == qs;
  }

  /** Cutting into fives keeps every bit and adds fewer than five zeros. */
  lemma {:induction false} QuintetsKeepBits(b: Bits)
    ensures QuintetsBits(Quintets(b)) == b + Zeros(PadOf(|b|))
    ensures |Quintets(b)| == (|b| + 4) / 5
  {
    if b == [] {
    } else if |b| < 5 {
      FiveBits(b + Zeros(5 - |b|));
      BitsCons(Five(b + Zeros(5 - |b|)), []);
      assert QuintetsBits([]) == [];
    } else {
      FiveBits(b[..5]);
      QuintetsKeepBits(b[5..]);
      BitsCons(Five(b[..5]), Quintets(b[5..]));
      assert b[..5] + (b[5..] + Zeros(PadOf(|b| - 5))) == b + Zeros(PadOf(|b|));
    }
  }

  lemma {:induction false} OctetsOfBytes(bytes: seq<Byte>, tail: Bits)
    requires |tail| < 8
    ensures Octets(BytesBits(bytes) + tail) == bytes
  {
    if bytes != [] {
      OctetsOfBytes(bytes[1..], tail);
      CutEight(bytes[0], BytesBits(bytes[1..]) + tail);
      assert BytesBits(bytes) + tail == BitsOf(bytes[0], 8) + (BytesBits(bytes[1..]) + tail);
    }
  }

  /** Round trip: what the encoder writes, the decoder reads back, for every byte string. */
  lemma RoundTrip(bytes: seq<Byte>)
    ensures Decoded(Encoded(bytes)) == Some(bytes)
  {
    var b := BytesBits(bytes);
    PayloadOfChars(Quintets(b));
    QuintetsKeepBits(b);
    OctetsOfBytes(bytes, Zeros(PadOf(|b|)));
  }

  lemma {:induction false} BytesBitsLength(bytes: seq<Byte>)
    ensures |BytesBits(bytes)| == 8 * |bytes|
  {
    if bytes != [] {
      BytesBitsLength(bytes[1..]);
    }
  }

  lemma {:induction false} CharsLength(qs: seq<Quintet>)
    ensures |Chars(qs)| == |qs|
  {
    if qs != [] {
      CharsLength(qs[1..]);
    }
  }

  /** Unpadded length: ceil(8n / 5). */
  lemma EncodedLength(bytes: seq<Byte>)
    ensures |Encoded(bytes)| == (8 * |bytes| + 4) / 5
  {
    BytesBitsLength(bytes);
    QuintetsKeepBits(BytesBits(bytes));
    CharsLength(Quintets(BytesBits(bytes)));
  }

  // ---------------------------------------------------------------- other spellings

  function Upper(c: char): char {
    if 'a' <= c <= 'z' then (c as int - 32) as char else c
  }

  /** Without '=' and whitespace, in upper case. */
  function Canon(s: string): string {
    if s == [] then [] else Counted(s[0]) + Canon(s[1..])
  }

  function Counted(c: char): string {
    if Skipped(c) then [] else [Upper(c)]
  }

  lemma UpperSame(c: char)
    ensures ValueOf(Upper(c)) == ValueOf(c) && (Skipped(Upper(c)) <==> Skipped(c))
  {
  }

  lemma {:induction false} CanonDecodesAlike(s: string)
    ensures Payload(Canon(s)) == Payload(s)
  {
    if s != [] {
      CanonDecodesAlike(s[1..]);
      if Skipped(s[0]) {
        assert Canon(s) == Canon(s[1..]);
      } else {
        UpperSame(s[0]);
        assert Canon(s)[1..] == Canon(s[1..]);
      }
    }
  }

  /** Case, padding and whitespace never matter. */
  lemma SpellingIsIgnored(s: string, t: string)
    requires Canon(s) == Canon(t)
    ensures Decoded(s) == Decoded(t)
  {
    CanonDecodesAlike(s);
    CanonDecodesAlike(t);
  }

  lemma {:induction false} CanonAppend(s: string, t: string)
    ensures Canon(s + t) == Canon(s) + Canon(t)
  {
    if s == [] {
      assert s + t == t;
    } else {
      CanonAppend(s[1..], t);
      assert (s + t)[1..] == s[1..] + t && (s + t)[0] == s[0];
      assert Counted(s[0]) + (Canon(s[1..]) + Canon(t)) == Counted(s[0]) + Canon(s[1..]) + Canon(t);
    }
  }

  /** Padding or whitespace put anywhere into an encoding is ignored. */
  lemma InsertionIsIgnored(bytes: seq<Byte>, i: nat, filler: string)
    requires i <= |Encoded(bytes)| && forall k :: 0 <= k < |filler| ==> filler[k] == '=' || IsSpace(filler[k])
    ensures Decoded(Encoded(bytes)[..i] + filler + Encoded(bytes)[i..]) == Some(bytes)
  {
    var s := Encoded(bytes);
    FillerVanishes(filler);
    CanonAppend(s[..i] + filler, s[i..]);
    CanonAppend(s[..i], filler);
    CanonAppend(s[..i], s[i..]);
    assert s[..i] + s[i..] == s;
    SpellingIsIgnored(s[..i] + filler + s[i..], s);
    RoundTrip(bytes);
  }

  lemma {:induction false} FillerVanishes(filler: string)
    requires forall k :: 0 <= k < |filler| ==> Skipped(filler[k])
    ensures Canon(filler) == []
  {
    if filler != [] {
      FillerVanishes(filler[1..]);
    }
  }

  // ---------------------------------------------------------------- which strings are encodings

  lemma {:induction false} CanonOfPayload(s: string)
    requires Payload(s).Some?
    ensures Canon(s) == Chars(Payload(s).value)
  {
    if s != [] {
      CanonOfPayload(s[1..]);
      if !Skipped(s[0]) {
        var v := ValueOf(s[0]).value;
        assert CharOf(v) == Upper(s[0]);
        CharsCons(v, Payload(s[1..]).value);
      }
    }
  }

  lemma {:induction false} QuintetsOfBits(qs: seq<Quintet>)
    ensures Quintets(QuintetsBits(qs)) == qs
    ensures |QuintetsBits(qs)| == 5 * |qs|
  {
    if qs != [] {
      QuintetsOfBits(qs[1..]);
      CutFive(qs[0], QuintetsBits(qs[1..]));
      assert qs == [qs[0]] + qs[1..];
    }
  }

  /** The bits that make up whole bytes, and the bits a decode throws away. */
  function Whole(b: Bits): nat {
    |b| / 8 * 8
  }

  function Dropped(b: Bits): Bits {
    b[Whole(b)..]
  }

  lemma {:induction false} OctetsKeepBits(b: Bits)
    ensures BytesBits(Octets(b)) == b[..Whole(b)]
  {
    if |b| >= 8 {
      EightBits(b[..8]);
      OctetsKeepBits(b[8..]);
      BytesBitsCons(Eight(b[..8]), Octets(b[8..]));
      assert Whole(b[8..]) == Whole(b) - 8;
      assert b[..8] + b[8..][..Whole(b) - 8] == b[..Whole(b)];
    }
  }

  lemma BytesBitsCons(byte: Byte, bytes: seq<Byte>)
    ensures BytesBits([byte] + bytes) == BitsOf(byte, 8) + BytesBits(bytes)
  {
    assert ([byte] + bytes)[1..] == bytes;
  }

  lemma PayloadUnique(s: string, bytes: seq<Byte>)
    requires Payload(s).Some?
    ensures Encoded(bytes) == Canon(s) <==> Quintets(BytesBits(bytes)) == Payload(s).value
  {
    CanonOfPayload(s);
    PayloadOfChars(Quintets(BytesBits(bytes)));
    PayloadOfChars(Payload(s).value);
  }

  /** Cutting a prefix into fives gives the whole back exactly when it stops short by zeros
      that the last quintet fills in. */
  lemma FilledUp(b: Bits, n: nat)
    requires |b| % 5 == 0 && n <= |b|
    ensures QuintetsBits(Quintets(b[..n])) == b <==> (|b| - n < 5 && b[n..] == Zeros(|b| - n))
  {
    var k := |b| - n;
    QuintetsKeepBits(b[..n]);
    assert b == b[..n] + b[n..];
    if b == b[..n] + Zeros(PadOf(n)) {
      assert k == PadOf(n);
      assert b[n..] == Zeros(k);
    }
    if k < 5 {
      assert PadOf(n) == k;
    }
  }

  lemma SameBits(qs: seq<Quintet>, rs: seq<Quintet>)
    ensures qs == rs <==> QuintetsBits(qs) == QuintetsBits(rs)
  {
    QuintetsOfBits(qs);
    QuintetsOfBits(rs);
  }

  lemma PrefixReencodes(qs: seq<Quintet>, n: nat)
    requires n <= |QuintetsBits(qs)|
    ensures var (b, k) := (QuintetsBits(qs), |QuintetsBits(qs)| - n);
            Quintets(b[..n]) == qs <==> (k < 5 && b[n..] == Zeros(k))
  {
    QuintetsOfBits(qs);
    SameBits(Quintets(QuintetsBits(qs)[..n]), qs);
    FilledUp(QuintetsBits(qs), n);
  }

  /** Re-encoding a decoded string gives the string back, up to spelling, exactly when fewer than
      five bits were thrown away and all of them were zero. */
  lemma ReencodesIff(s: string)
    requires Payload(s).Some?
    ensures var dropped := Dropped(QuintetsBits(Payload(s).value));
            Encoded(Decoded(s).value) == Canon(s) <==> (|dropped| < 5 && dropped == Zeros(|dropped|))
  {
    var b := QuintetsBits(Payload(s).value);
    PayloadUnique(s, Octets(b));
    OctetsKeepBits(b);
    PrefixReencodes(Payload(s).value, Whole(b));
  }
}
