/** io.c and byteorder.h: the integer encodings of the wire. */
module Codec {
  import opened Bytes

  predicate IsInt32(x: int) {
    -0x8000_0000 <= x < 0x8000_0000
  }

  predicate IsInt64(x: int) {
    -0x8000_0000_0000_0000 <= x < 0x8000_0000_0000_0000
  }

  /** What a reader makes of the bytes in front of it. */
  datatype Read<T> = Got(value: T, rest: seq<byte>) | Short | Overflow
  {
    predicate IsFailure() {
      !Got?
    }

    function PropagateFailure<U>(): Read<U>
      requires !Got?
    {
      if Short? then Short else Overflow
    }

    function Extract(): (T, seq<byte>)
      requires Got?
    {
      (value, rest)
    }
  }

  // ---------- little-endian words (byteorder.h:38-67) ----------

  /** The low n bytes of x, least significant first. */
  function LE(x: int, n: nat): (b: seq<byte>)
    ensures |b| == n
    decreases n
  {
    if n == 0 then [] else [x % 256] + LE(x / 256, n - 1)
  }

  function Word(b: seq<byte>): nat {
    if b == [] then 0 else b[0] + 256 * Word(b[1..])
  }

  function Pow256(n: nat): nat {
    if n == 0 then 1 else 256 * Pow256(n - 1)
  }

  lemma {:induction false} WordOfLE(x: nat, n: nat)
    requires x < Pow256(n)
    ensures Word(LE(x, n)) == x
  {
    if n > 0 {
      WordOfLE(x / 256, n - 1);
      assert LE(x, n)[1..] == LE(x / 256, n - 1);
    }
  }

  function Unsigned(x: int, bits: nat): nat
    requires bits == 32 || bits == 64
  {
    if bits == 32 then x % TWO32 else x % TWO64
  }

  /** Reading an unsigned word back as a signed one. */
  function AsSigned(u: nat, bits: nat): int
    requires bits == 32 || bits == 64
  {
    if bits == 32 then (if u < TWO32 / 2 then u else u - TWO32) else if u < TWO64 / 2 then u else u - TWO64
  }

  // ---------- varint and varlong (io.c:120-125, 1816-1887, 2164-2216) ----------

  /** int_byte_extra: how many bytes follow, from the leading byte. */
  function Extra(ch: byte): nat {
    if ch < 0x80 then 0 else if ch < 0xC0 then 1 else if ch < 0xE0 then 2 else if ch < 0xF0 then 3
    else if ch < 0xF8 then 4 else if ch < 0xFC then 5 else 6
  }

  /** Two to the power 8-n: the first value too big for the leading byte when n bytes follow. */
  function Bit(n: nat): nat
    requires n <= 8
  {
    if n == 0 then 256 else if n == 1 then 128 else if n == 2 then 64 else if n == 3 then 32 else if n == 4 then 16
    else if n == 5 then 8 else if n == 6 then 4 else if n == 7 then 2 else 1
  }

  /** The number of bytes kept: trailing zero bytes are dropped down to min. */
  function Significant(b: seq<byte>, min: nat): (cnt: nat)
    requires min <= |b|
    ensures min <= cnt <= |b| && (cnt > min ==> b[cnt - 1] != 0)
  {
    if |b| > min && b[|b| - 1] == 0 then Significant(b[..|b| - 1], min) else |b|
  }

  lemma {:induction false} SignificantKeeps(b: seq<byte>, min: nat)
    requires min <= |b|
    ensures b == b[..Significant(b, min)] + Zeros(|b| - Significant(b, min))
  {
    if |b| > min && b[|b| - 1] == 0 {
      SignificantKeeps(b[..|b| - 1], min);
      var cnt := Significant(b, min);
      assert b == b[..|b| - 1] + [0];
      assert Zeros(|b| - cnt) == Zeros(|b| - 1 - cnt) + [0];
    } else {
      assert Zeros(0) == [];
    }
  }

  /** The leading byte and the bytes after it, for a word given by its bytes b: the top kept byte is folded
      into the leading byte when it fits. */
  function VarBytes(b: seq<byte>, min: nat): seq<byte>
    requires 1 <= min <= |b| <= min + 5
  {
    var cnt := Significant(b, min);
    var bit := Bit(cnt - min + 1);
    if b[cnt - 1] >= bit then [256 - bit] + b[..cnt]
    else if cnt > min then [b[cnt - 1] + 256 - 2 * bit] + b[..cnt - 1]
    else [b[cnt - 1]] + b[..cnt - 1]
  }

  /** Both readers: `min` bytes, then as many more as the leading byte announces, at most `width` in the word. */
  function ReadVar(s: seq<byte>, min: nat, width: nat): Read<seq<byte>>
    requires 1 <= min <= width
  {
    if |s| < min then Short else
      var ch, extra := s[0], Extra(s[0]);
      if extra == 0 then Got(s[1..min] + [ch] + Zeros(width - min), s[min..])
      else if min + extra > width + 1 then Overflow
      else if |s| < min + extra then Short
      else Got((s[1..min + extra] + [ch % Bit(extra)] + Zeros(width - min))[..width], s[min + extra..])
  }

  /** The leading byte tells apart the cases of the encoder. */
  lemma LeadingByte(n: nat, top: byte)
    requires n <= 5 && top < Bit(n + 1)
    ensures Extra(256 - Bit(n + 1)) == n + 1 && (256 - Bit(n + 1)) % Bit(n + 1) == 0
    ensures n > 0 ==> Extra(top + 256 - 2 * Bit(n + 1)) == n && (top + 256 - 2 * Bit(n + 1)) % Bit(n) == top
    ensures n == 0 ==> Extra(top) == 0
  {
  }

  /** Reading back a leading byte that announces n more bytes than the minimum. */
  lemma ReadBack(ch: byte, body: seq<byte>, rest: seq<byte>, min: nat, width: nat)
    requires 1 <= min <= width && 0 < Extra(ch) <= width + 1 - min && |body| == min + Extra(ch) - 1
    ensures ReadVar([ch] + body + rest, min, width)
         == Got((body + [ch % Bit(Extra(ch))] + Zeros(width - min))[..width], rest)
  {
    hide Extra, Bit;
    var s, extra := [ch] + body + rest, Extra(ch);
    assert s[1..min + extra] == body && s[min + extra..] == rest;
  }

  /** Encoding and decoding a word of min..min+5 bytes is the identity, and leaves the following bytes alone. */
  lemma VarRoundTrip(b: seq<byte>, min: nat, rest: seq<byte>)
    requires 1 <= min <= |b| <= min + 5
    ensures ReadVar(VarBytes(b, min) + rest, min, |b|) == Got(b, rest)
  {
    hide Significant, Extra, ReadVar;
    SignificantKeeps(b, min);
    var cnt := Significant(b, min);
    var n, pad := cnt - min, Zeros(|b| - min);
    if b[cnt - 1] >= Bit(n + 1) {
      LeadingByte(n, 0);
      ReadBack(256 - Bit(n + 1), b[..cnt], rest, min, |b|);
      assert (b[..cnt] + [0] + pad)[..|b|] == b[..cnt] + Zeros(|b| - cnt);
    } else {
      var top, body := b[cnt - 1], b[..cnt - 1];
      LeadingByte(n, top);
      assert body + [top] == b[..cnt];
      if n > 0 {
        ReadBack(top + 256 - 2 * Bit(n + 1), body, rest, min, |b|);
        assert (b[..cnt] + pad)[..|b|] == b[..cnt] + Zeros(|b| - cnt);
      } else {
        ReadShort(top, body, rest, min, |b|);
      }
    }
  }

  /** Nothing but zeros above k: no more than k bytes are kept. */
  lemma {:induction false} FewSignificant(b: seq<byte>, min: nat, k: nat)
    requires min <= k <= |b| && forall i :: k <= i < |b| ==> b[i] == 0
    ensures Significant(b, min) <= k
  {
    if |b| > k {
      FewSignificant(b[..|b| - 1], min, k);
    }
  }

  lemma VarLength(b: seq<byte>, min: nat)
    requires 1 <= min <= |b| <= min + 5
    ensures var cnt := Significant(b, min);
      |VarBytes(b, min)| == if b[cnt - 1] >= Bit(cnt - min + 1) then cnt + 1 else cnt
  {
  }

  /** What a leading byte that announces more bytes leaves for the top byte of the word. */
  lemma TopBits(ch: byte)
    ensures 0 < Extra(ch) <= 5 ==> ch % Bit(Extra(ch)) < Bit(Extra(ch) + 1)
  {
  }

  /** No shorter string reads as the same word, so that the encoding is the shortest; in particular a word whose bytes
      after the first `min` are zero, and the last of those below 128, takes `min` bytes. */
  lemma VarShortest(b: seq<byte>, min: nat, s: seq<byte>, rest: seq<byte>)
    requires 1 <= min <= |b| <= min + 5 && ReadVar(s, min, |b|) == Got(b, rest)
    ensures |VarBytes(b, min)| <= |s| - |rest|
  {
    hide Significant, Extra, VarBytes;
    var ch, e := s[0], Extra(s[0]);
    VarLength(b, min);
    if e == 0 {
      FewSignificant(b, min, min);
      assert b[min - 1] == ch;
      Leading(ch);
    } else {
      var k := if min + e <= |b| then min + e else |b|;
      FewSignificant(b, min, k);
      if Significant(b, min) == min + e {
        assert b[min + e - 1] == ch % Bit(e);
        TopBits(ch);
      }
    }
  }

  lemma Leading(ch: byte)
    ensures Extra(ch) == 0 ==> ch < Bit(1)
  {
  }

  lemma ReadShort(ch: byte, body: seq<byte>, rest: seq<byte>, min: nat, width: nat)
    requires 1 <= min <= width && Extra(ch) == 0 && |body| == min - 1
    ensures ReadVar([ch] + body + rest, min, width) == Got(body + [ch] + Zeros(width - min), rest)
  {
    var s := [ch] + body + rest;
    assert s[1..min] == body && s[min..] == rest;
  }

  // ---------- the four encodings ----------

  function EncodeInt(x: int): seq<byte> {
    LE(Unsigned(x, 32), 4)
  }

  function DecodeInt(s: seq<byte>): Read<int> {
    if |s| < 4 then Short else Got(AsSigned(Word(s[..4]), 32), s[4..])
  }

  function EncodeVarint(x: int): seq<byte> {
    VarBytes(LE(Unsigned(x, 32), 4), 1)
  }

  function DecodeVarint(s: seq<byte>): Read<int> {
    match ReadVar(s, 1, 4)
    case Got(b, rest) => Got(AsSigned(Word(b), 32), rest)
    case Short => Short
    case Overflow => Overflow
  }

  function EncodeVarlong(x: int, min: nat): seq<byte>
    requires 3 <= min <= 8
  {
    VarBytes(LE(Unsigned(x, 64), 8), min)
  }

  function DecodeVarlong(s: seq<byte>, min: nat): Read<int>
    requires 3 <= min <= 8
  {
    match ReadVar(s, min, 8)
    case Got(b, rest) => Got(AsSigned(Word(b), 64), rest)
    case Short => Short
    case Overflow => Overflow
  }

  /** io.c:2222-2240. */
  function EncodeLongint(x: int): seq<byte> {
    if 0 <= x <= 0x7FFF_FFFF then LE(x, 4) else [0xFF, 0xFF, 0xFF, 0xFF] + LE(Unsigned(x, 64), 8)
  }

  /** io.c:1928-1945. */
  function DecodeLongint(s: seq<byte>): Read<int> {
    match DecodeInt(s)
    case Got(num, rest) =>
      if num != -1 then Got(num, rest)
      else if |rest| < 8 then Short
      else Got(AsSigned(Word(rest[..8]), 64), rest[8..])
    case Short => Short
    case Overflow => Overflow
  }

  lemma WordBytes(x: int, bits: nat)
    requires (bits == 32 && IsInt32(x)) || (bits == 64 && IsInt64(x))
    ensures AsSigned(Word(LE(Unsigned(x, bits), bits / 8)), bits) == x
  {
    hide Pow256, LE, Word;
    Powers();
    WordOfLE(Unsigned(x, bits), bits / 8);
  }

  lemma Powers()
    ensures Pow256(4) == TWO32 && Pow256(8) == TWO64
  {
    assert Pow256(2) == 0x1_0000;
    assert Pow256(4) == TWO32;
    assert Pow256(6) == TWO32 * 0x1_0000;
  }

  /** Every encoding is a self-delimiting inverse of its decoder. */
  lemma IntRoundTrip(x: int, rest: seq<byte>)
    requires IsInt32(x)
    ensures DecodeInt(EncodeInt(x) + rest) == Got(x, rest)
  {
    WordBytes(x, 32);
    var b := EncodeInt(x);
    assert (b + rest)[..4] == b && (b + rest)[4..] == rest;
  }

  lemma VarintRoundTrip(x: int, rest: seq<byte>)
    requires IsInt32(x)
    ensures DecodeVarint(EncodeVarint(x) + rest) == Got(x, rest)
  {
    hide LE, Word, AsSigned, VarBytes, ReadVar;
    WordBytes(x, 32);
    VarRoundTrip(LE(Unsigned(x, 32), 4), 1, rest);
  }

  lemma VarlongRoundTrip(x: int, min: nat, rest: seq<byte>)
    requires IsInt64(x) && 3 <= min <= 8
    ensures DecodeVarlong(EncodeVarlong(x, min) + rest, min) == Got(x, rest)
  {
    WordBytes(x, 64);
    VarRoundTrip(LE(Unsigned(x, 64), 8), min, rest);
  }

  lemma AllOnes()
    ensures EncodeInt(-1) == [0xFF, 0xFF, 0xFF, 0xFF]
  {
    assert LE(0xFF, 1) == [0xFF];
    assert LE(0xFF_FF, 2) == [0xFF, 0xFF];
    assert LE(0xFF_FFFF, 3) == [0xFF, 0xFF, 0xFF];
  }

  /** No shorter string reads as the same number, except that the reader would take small negative ones in four bytes. */
  lemma LongintShortest(x: int, s: seq<byte>, rest: seq<byte>)
    requires IsInt64(x) && DecodeLongint(s) == Got(x, rest) && !(-0x8000_0000 <= x < -1)
    ensures |EncodeLongint(x)| <= |s| - |rest|
  {
    hide LE, Word;
    Powers();
    WordBelow(s[..4]);
  }

  lemma {:induction false} WordBelow(b: seq<byte>)
    ensures Word(b) < Pow256(|b|)
  {
    if b != [] {
      WordBelow(b[1..]);
    }
  }

  lemma LongintRoundTrip(x: int, rest: seq<byte>)
    requires IsInt64(x)
    ensures DecodeLongint(EncodeLongint(x) + rest) == Got(x, rest)
  {
    hide LE, Word, AsSigned;
    AllOnes();
    if 0 <= x <= 0x7FFF_FFFF {
      IntRoundTrip(x, rest);
    } else {
      var b := LE(Unsigned(x, 64), 8);
      WordBytes(x, 64);
      assert EncodeLongint(x) + rest == EncodeInt(-1) + (b + rest);
      IntRoundTrip(-1, b + rest);
      assert (b + rest)[..8] == b && (b + rest)[8..] == rest;
    }
  }
}
