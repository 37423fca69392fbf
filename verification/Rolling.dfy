/** The weak checksum of checksum.c and the identities that let match.c roll it. */
module Rolling {
  import opened Bytes
  import opened Registers

  const CHAR_OFFSET := 0

  function Value(b: byte): int {
    Signed(b) + CHAR_OFFSET
  }

  /** First component: the plain sum of the window. */
  function Sum(w: seq<byte>): int {
    if w == [] then 0 else Sum(w[..|w| - 1]) + Value(w[|w| - 1])
  }

  /** Second component: the sum of the prefix sums. */
  function SumOfSums(w: seq<byte>): int {
    if w == [] then 0 else SumOfSums(w[..|w| - 1]) + Sum(w)
  }

  /** The weak checksum of a window: 16 bits of each component. */
  function Weak(w: seq<byte>): int {
    Sum(w) % TWO16 + SumOfSums(w) % TWO16 * TWO16
  }

  lemma Snoc(w: seq<byte>, c: byte)
    ensures Sum(w + [c]) == Sum(w) + Value(c)
    ensures SumOfSums(w + [c]) == SumOfSums(w) + Sum(w) + Value(c)
  {
    assert (w + [c])[..|w|] == w;
  }

  /** Removing the first byte, in exact arithmetic. */
  lemma {:induction false} DropFirst(a: byte, w: seq<byte>, n: int)
    requires n == Times(|w| + 1, Value(a))
    ensures Sum([a] + w) == Sum(w) + Value(a)
    ensures SumOfSums([a] + w) == SumOfSums(w) + n
  {
    if w == [] {
      assert [a] + w == [] + [a];
      Snoc([], a);
    } else {
      var v, c := w[..|w| - 1], w[|w| - 1];
      DropFirst(a, v, n - Value(a));
      assert w == v + [c] && [a] + w == [a] + v + [c];
      Snoc(v, c);
      Snoc([a] + v, c);
    }
  }

  function Times(n: nat, x: int): int {
    if n == 0 then 0 else Times(n - 1, x) + x
  }

  lemma {:induction false} TimesIsProduct(n: nat, x: int)
    ensures Times(n, x) == n * x
  {
    if n > 0 {
      TimesIsProduct(n - 1, x);
    }
  }

  /** Sliding a window by one byte, in exact arithmetic. */
  lemma Slide(w: seq<byte>, c: byte)
    requires w != []
    ensures Sum(w[1..]) == Sum(w) - Value(w[0])
    ensures SumOfSums(w[1..]) == SumOfSums(w) - Times(|w|, Value(w[0]))
    ensures Sum(w[1..] + [c]) == Sum(w[1..]) + Value(c)
    ensures SumOfSums(w[1..] + [c]) == SumOfSums(w[1..]) + Sum(w[1..] + [c])
  {
    hide *;
    assert w == [w[0]] + w[1..];
    DropFirst(w[0], w[1..], Times(|w|, Value(w[0])));
    Snoc(w[1..], c);
  }

  /** One turn of the rolling update on 32-bit registers: drop w[0], then append c. */
  lemma RollRegisters(w: seq<byte>, c: byte, s1: int, s2: int, n: int)
    requires w != [] && n == Times(|w|, Value(w[0]))
    requires Tracks(s1, Sum(w)) && Tracks(s2, SumOfSums(w))
    ensures var t1, t2 := Wrap32(s1 - Value(w[0])), Wrap32(s2 - n);
      && Tracks(t1, Sum(w[1..])) && Tracks(t2, SumOfSums(w[1..]))
      && Tracks(Wrap32(t1 + Value(c)), Sum(w[1..] + [c]))
      && Tracks(Wrap32(t2 + Wrap32(t1 + Value(c))), SumOfSums(w[1..] + [c]))
  {
    hide *;
    Slide(w, c);
    var first := Value(w[0]);
    var t1, t2 := Wrap32(s1 - first), Wrap32(s2 - n);
    TracksAdd(s1, Sum(w), -first);
    TracksAdd(s2, SumOfSums(w), -n);
    TracksAdd(t1, Sum(w[1..]), Value(c));
    TracksMix(t2, SumOfSums(w[1..]), Wrap32(t1 + Value(c)), Sum(w[1..] + [c]), 0);
  }

  lemma WeakOfRegisters(s1: int, s2: int, w: seq<byte>)
    requires Tracks(s1, Sum(w)) && Tracks(s2, SumOfSums(w))
    ensures s1 % TWO16 + Wrap32(s2 * TWO16) == Weak(w)
  {
    hide Tracks, Wrap32, Sum, SumOfSums;
    TracksLowBits(s1, Sum(w));
    TracksLowBits(s2, SumOfSums(w));
    ShiftedHalf(s2);
  }

  lemma FourSteps(w: seq<byte>, a: byte, b: byte, c: byte, d: byte)
    ensures Sum(w + [a, b, c, d]) == Sum(w) + Signed(a) + Signed(b) + Signed(c) + Signed(d) + 4 * CHAR_OFFSET
    ensures SumOfSums(w + [a, b, c, d])
         == SumOfSums(w) + 4 * (Sum(w) + Signed(a)) + 3 * Signed(b) + 2 * Signed(c) + Signed(d) + 10 * CHAR_OFFSET
  {
    var x, y, z := w + [a], w + [a] + [b], w + [a] + [b] + [c];
    assert w + [a, b, c, d] == z + [d];
    Snoc(w, a);
    Snoc(x, b);
    Snoc(y, c);
    Snoc(z, d);
  }

  /** checksum.c get_checksum1: four bytes a turn, then the tail, in 32-bit arithmetic. */
  method GetChecksum1(buf: seq<byte>) returns (sum: int)
    ensures sum == Weak(buf)
  {
    hide Tracks, Sum, SumOfSums, Weak, Wrap32, Signed, Value;
    var s1, s2, i := 0, 0, 0;
    EmptySums();
    assert buf[..0] == [];
    while i < |buf| - 4
      invariant 0 <= i <= |buf|
      invariant Tracks(s1, Sum(buf[..i])) && Tracks(s2, SumOfSums(buf[..i]))
    {
      FourSteps(buf[..i], buf[i], buf[i + 1], buf[i + 2], buf[i + 3]);
      assert buf[..i + 4] == buf[..i] + [buf[i], buf[i + 1], buf[i + 2], buf[i + 3]];
      var d2 := 4 * Signed(buf[i]) + 3 * Signed(buf[i + 1]) + 2 * Signed(buf[i + 2]) + Signed(buf[i + 3])
                + 10 * CHAR_OFFSET;
      var d1 := Signed(buf[i]) + Signed(buf[i + 1]) + Signed(buf[i + 2]) + Signed(buf[i + 3]) + 4 * CHAR_OFFSET;
      TracksMix(s2, SumOfSums(buf[..i]), s1, Sum(buf[..i]), d2);
      TracksAdd(s1, Sum(buf[..i]), d1);
      s2 := Wrap32(s2 + 4 * s1 + d2);
      s1 := Wrap32(s1 + d1);
      i := i + 4;
    }
    while i < |buf|
      invariant 0 <= i <= |buf|
      invariant Tracks(s1, Sum(buf[..i])) && Tracks(s2, SumOfSums(buf[..i]))
    {
      Snoc(buf[..i], buf[i]);
      assert buf[..i + 1] == buf[..i] + [buf[i]];
      TracksAdd(s1, Sum(buf[..i]), Value(buf[i]));
      s1 := Wrap32(s1 + Value(buf[i]));
      TracksMix(s2, SumOfSums(buf[..i]), s1, Sum(buf[..i + 1]), 0);
      s2 := Wrap32(s2 + s1);
      i := i + 1;
    }
    assert buf[..i] == buf;
    WeakOfRegisters(s1, s2, buf);
    sum := s1 % TWO16 + Wrap32(s2 * TWO16);
  }

  lemma EmptySums()
    ensures Tracks(0, Sum([])) && Tracks(0, SumOfSums([]))
  {
  }
}
