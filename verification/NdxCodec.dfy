/** io.c: writing the variable-length integers, and the stateful coding of file-list indexes. */
module NdxCodec {
  import opened Bytes
  import opened Codec

  const NDX_DONE := -1

  /** io.c:2164-2216: write_varint is min 1 on 4 bytes, write_varlong is min 3..8 on 8 bytes. */
  method WriteVar(word: seq<byte>, min: nat) returns (out: seq<byte>)
    requires 1 <= min <= |word| <= min + 5
    ensures out == VarBytes(word, min)
  {
    hide Significant, Bit, VarBytes;
    var b: array<byte> := new byte[|word| + 1];
    forall i | 0 < i <= |word| {
      b[i] := word[i - 1];
    }
    var cnt := |word|;
    assert word[..cnt] == word;
    while cnt > min && b[cnt] == 0
      invariant min <= cnt <= |word|
      invariant forall i :: 0 < i <= |word| ==> b[i] == word[i - 1]
      invariant Significant(word[..cnt], min) == Significant(word, min)
    {
      DropZero(word[..cnt], min);
      assert word[..cnt][..cnt - 1] == word[..cnt - 1];
      cnt := cnt - 1;
    }
    KeepAll(word[..cnt], min);
    VarBytesAt(word, min, cnt);
    var bit, top := Bit(1 + cnt - min), b[cnt];
    BitRange(1 + cnt - min);
    if top >= bit {
      b[0] := 255 - (bit - 1);
      cnt := cnt + 1;
      assert b[..cnt] == [256 - bit] + word[..cnt - 1];
    } else {
      var lead: int := if cnt > min then top as int + 255 - (bit * 2 - 1) else top as int;
      b[0] := lead;
      assert b[..cnt] == [lead] + word[..cnt - 1];
    }
    out := b[..cnt];
  }

  lemma VarBytesAt(word: seq<byte>, min: nat, cnt: nat)
    requires 1 <= min <= |word| <= min + 5 && cnt == Significant(word, min)
    ensures var bit, top: int := Bit(1 + cnt - min), word[cnt - 1];
      VarBytes(word, min) ==
      if top >= bit then [256 - bit] + word[..cnt]
      else [if cnt > min then top + 256 - 2 * bit else top] + word[..cnt - 1]
  {
    hide Significant, Bit;
    BitRange(1 + cnt - min);
  }

  lemma DropZero(b: seq<byte>, min: nat)
    requires min < |b| && b[|b| - 1] == 0
    ensures Significant(b, min) == Significant(b[..|b| - 1], min)
  {
  }

  lemma KeepAll(b: seq<byte>, min: nat)
    requires min <= |b| && (|b| == min || b[|b| - 1] != 0)
    ensures Significant(b, min) == |b|
  {
  }

  lemma BitRange(n: nat)
    requires 1 <= n <= 8
    ensures 1 <= Bit(n) <= 128
  {
  }

  /** The two remembered indexes. */
  datatype Prev = Prev(positive: int, negative: int)
  {
    predicate Ok() {
      -1 <= positive < 0x8000_0000 && 1 <= negative < 0x8000_0000
    }
  }

  const START := Prev(-1, 1)

  /** A non-negative number relative to the previous one of its sign. */
  function EncodeDiff(num: nat, prev: int): seq<byte>
    requires num < 0x8000_0000
  {
    var diff := num - prev;
    if 0 < diff < 0xFE then [diff]
    else if diff < 0 || diff > 0x7FFF then
      [0xFE, num / 0x100_0000 + 0x80, num % 0x100, num / 0x100 % 0x100, num / 0x1_0000 % 0x100]
    else [0xFE, diff / 0x100, diff % 0x100]
  }

  /** io.c:2318-2362 (protocol 30 and later). */
  function EncodeNdx(p: Prev, ndx: int): (seq<byte>, Prev)
    requires -0x8000_0000 < ndx < 0x8000_0000
  {
    if ndx >= 0 then (EncodeDiff(ndx, p.positive), p.(positive := ndx))
    else if ndx == NDX_DONE then ([0], p)
    else ([0xFF] + EncodeDiff(-ndx, p.negative), p.(negative := -ndx))
  }

  function DecodeDiff(s: seq<byte>, prev: int): Read<int> {
    if s == [] then Short
    else if s[0] != 0xFE then Got(s[0] as int + prev, s[1..])
    else if |s| < 3 then Short
    else
      var a: int, b: int := s[1], s[2];
      if a < 0x80 then Got(a * 0x100 + b + prev, s[3..])
      else if |s| < 5 then Short
      else
        var c: int, d: int := s[3], s[4];
        Got(b + c * 0x100 + d * 0x1_0000 + (a - 0x80) * 0x100_0000, s[5..])
  }

  /** io.c:2365-2397. */
  function DecodeNdx(p: Prev, s: seq<byte>): Read<(int, Prev)> {
    if s == [] then Short
    else if s[0] == 0 then Got((NDX_DONE, p), s[1..])
    else if s[0] == 0xFF then
      match DecodeDiff(s[1..], p.negative)
      case Got(num, rest) => Got((-num, p.(negative := num)), rest)
      case Short => Short
      case Overflow => Overflow
    else
      match DecodeDiff(s, p.positive)
      case Got(num, rest) => Got((num, p.(positive := num)), rest)
      case Short => Short
      case Overflow => Overflow
  }

  lemma DiffRoundTrip(num: nat, prev: int, rest: seq<byte>)
    requires num < 0x8000_0000
    ensures var s := EncodeDiff(num, prev);
      && s != [] && 0 < s[0] < 0xFF
      && DecodeDiff(s + rest, prev) == Got(num, rest)
  {
    var diff, s := num - prev, EncodeDiff(num, prev);
    assert (s + rest)[|s|..] == rest;
    if !(0 < diff < 0xFE) && (diff < 0 || diff > 0x7FFF) {
      var q := num / 0x100;
      assert num == num % 0x100 + q * 0x100;
      assert q == q % 0x100 + q / 0x100 * 0x100;
      assert num / 0x1_0000 == q / 0x100 && num / 0x100_0000 == q / 0x100 / 0x100;
    }
  }

  /** One index: the reader returns it and its state becomes the writer's. */
  lemma NdxRoundTrip(p: Prev, ndx: int, rest: seq<byte>)
    requires p.Ok() && -0x8000_0000 < ndx < 0x8000_0000
    ensures var (s, p') := EncodeNdx(p, ndx);
      p'.Ok() && DecodeNdx(p, s + rest) == Got((ndx, p'), rest)
  {
    var (s, p') := EncodeNdx(p, ndx);
    if ndx >= 0 {
      DiffRoundTrip(ndx, p.positive, rest);
    } else if ndx == NDX_DONE {
      assert (s + rest)[1..] == rest;
    } else {
      DiffRoundTrip(-ndx, p.negative, rest);
      assert (s + rest)[1..] == EncodeDiff(-ndx, p.negative) + rest;
    }
  }

  lemma DiffShortest(num: nat, prev: int, s: seq<byte>, rest: seq<byte>)
    requires num < 0x8000_0000 && DecodeDiff(s, prev) == Got(num, rest)
    ensures |EncodeDiff(num, prev)| <= |s| - |rest| || (|s| - |rest| == 1 && s[0] == num - prev && s[0] in [0, 0xFF])
  {
  }

  /** The differences of negative indexes that the reader would take in one byte and the writer sends in three. */
  predicate Spread(p: Prev, ndx: int) {
    ndx < NDX_DONE && (-ndx - p.negative == 0 || -ndx - p.negative == 0xFF)
  }

  /** No shorter string reads as the same index, with these two exceptions. */
  lemma NdxShortest(p: Prev, ndx: int, s: seq<byte>, rest: seq<byte>)
    requires p.Ok() && -0x8000_0000 < ndx < 0x8000_0000 && DecodeNdx(p, s).Got?
    requires DecodeNdx(p, s).value.0 == ndx && DecodeNdx(p, s).rest == rest
    ensures !Spread(p, ndx) ==> |EncodeNdx(p, ndx).0| <= |s| - |rest|
  {
    hide EncodeDiff, DecodeDiff;
    DiffSizes(s, p.positive);
    if s[0] == 0xFF {
      DiffSizes(s[1..], p.negative);
      if ndx < NDX_DONE {
        DiffShortest(-ndx, p.negative, s[1..], rest);
      } else if ndx >= 0 {
        EncodedSize(ndx, p.positive);
        Lowest(s[1..], p.negative);
      }
    } else if s[0] != 0 {
      if ndx >= 0 {
        DiffShortest(ndx, p.positive, s, rest);
      } else if ndx < NDX_DONE {
        Lowest(s, p.positive);
      }
    }
  }

  lemma DiffSizes(s: seq<byte>, prev: int)
    ensures DecodeDiff(s, prev).Got? ==> |DecodeDiff(s, prev).rest| < |s|
  {
  }

  lemma EncodedSize(num: nat, prev: int)
    requires num < 0x8000_0000
    ensures |EncodeDiff(num, prev)| <= 5
  {
  }

  /** Only the form of five bytes goes below the previous number, and it gives no negative one. */
  lemma Lowest(s: seq<byte>, prev: int)
    requires DecodeDiff(s, prev).Got? && DecodeDiff(s, prev).value < prev
    ensures DecodeDiff(s, prev).value >= 0 && |s| - |DecodeDiff(s, prev).rest| == 5
  {
  }

  /** And in those two cases there is one. */
  lemma NdxSpread(p: Prev, ndx: int, rest: seq<byte>)
    requires p.Ok() && -0x8000_0000 < ndx && Spread(p, ndx)
    ensures var short := [0xFF, -ndx - p.negative];
      DecodeNdx(p, short + rest) == Got((ndx, p.(negative := -ndx)), rest) && |short| < |EncodeNdx(p, ndx).0|
  {
    var short := [0xFF, -ndx - p.negative];
    assert (short + rest)[1..][1..] == rest;
  }

  predicate AllNdx(ndxs: seq<int>) {
    forall i :: 0 <= i < |ndxs| ==> -0x8000_0000 < ndxs[i] < 0x8000_0000
  }

  /** A whole run of write_ndx calls, and of read_ndx calls. */
  function EncodeRun(p: Prev, ndxs: seq<int>): (seq<byte>, Prev)
    requires AllNdx(ndxs)
    decreases |ndxs|
  {
    if ndxs == [] then ([], p) else
      var (s, p') := EncodeNdx(p, ndxs[0]);
      var (s', p'') := EncodeRun(p', ndxs[1..]);
      (s + s', p'')
  }

  function DecodeRun(p: Prev, s: seq<byte>, n: nat): Read<(seq<int>, Prev)>
    decreases n
  {
    if n == 0 then Got(([], p), s) else
      match DecodeNdx(p, s)
      case Got((ndx, p'), rest) =>
        (match DecodeRun(p', rest, n - 1)
         case Got((ndxs, p''), rest') => Got(([ndx] + ndxs, p''), rest')
         case Short => Short
         case Overflow => Overflow)
      case Short => Short
      case Overflow => Overflow
  }

  /** Every sequence of indexes survives the trip, and both ends finish in the same state. */
  lemma {:induction false} RunRoundTrip(p: Prev, ndxs: seq<int>, rest: seq<byte>)
    requires p.Ok() && AllNdx(ndxs)
    ensures var (s, p') := EncodeRun(p, ndxs);
      DecodeRun(p, s + rest, |ndxs|) == Got((ndxs, p'), rest)
    decreases |ndxs|
  {
    hide EncodeNdx, DecodeNdx;
    if ndxs == [] {
      assert [] + rest == rest;
    } else {
      var (s, p') := EncodeNdx(p, ndxs[0]);
      var (s', p'') := EncodeRun(p', ndxs[1..]);
      NdxRoundTrip(p, ndxs[0], s' + rest);
      RunRoundTrip(p', ndxs[1..], rest);
      assert s + s' + rest == s + (s' + rest);
      assert [ndxs[0]] + ndxs[1..] == ndxs;
    }
  }

  /** The static variables of write_ndx and the buffer it fills. */
  class NdxWriter {
    var prevPositive: int
    var prevNegative: int

    constructor ()
      ensures Prev(prevPositive, prevNegative) == START
    {
      prevPositive, prevNegative := -1, 1;
    }

    method WriteNdx(ndx: int) returns (out: seq<byte>)
      requires -0x8000_0000 < ndx < 0x8000_0000
      modifies this
      ensures var (s, p) := EncodeNdx(old(Prev(prevPositive, prevNegative)), ndx);
        out == s && Prev(prevPositive, prevNegative) == p
    {
      var b: array<byte> := new byte[6];
      var cnt, diff, num := 0, 0, ndx;
      if ndx >= 0 {
        diff := ndx - prevPositive;
        prevPositive := ndx;
      } else if ndx == NDX_DONE {
        return [0];
      } else {
        b[0], cnt := 0xFF, 1;
        num := -ndx;
        diff := num - prevNegative;
        prevNegative := num;
      }
      if 0 < diff < 0xFE {
        b[cnt], cnt := diff, cnt + 1;
      } else if diff < 0 || diff > 0x7FFF {
        b[cnt] := 0xFE;
        b[cnt + 1] := num / 0x100_0000 + 0x80;
        b[cnt + 2] := num % 0x100;
        b[cnt + 3] := num / 0x100 % 0x100;
        b[cnt + 4] := num / 0x1_0000 % 0x100;
        cnt := cnt + 5;
      } else {
        b[cnt] := 0xFE;
        b[cnt + 1] := diff / 0x100;
        b[cnt + 2] := diff % 0x100;
        cnt := cnt + 3;
      }
      out := b[..cnt];
      if ndx >= 0 {
        assert out == EncodeDiff(num, num - diff);
      } else {
        assert out == [0xFF] + EncodeDiff(num, num - diff);
      }
    }
  }
}
