/** 32-bit registers of which only the low 16 bits matter. */
module Registers {
  import opened Bytes

  /** A 32-bit register whose low 16 bits track an exact value. */
  predicate Tracks(r: int, exact: int) {
    (r - exact) % TWO16 == 0
  }

  lemma TracksLowBits(r: int, exact: int)
    ensures Tracks(r, exact) <==> r % TWO16 == exact % TWO16
  {
  }

  lemma TracksAdd(r: int, exact: int, d: int)
    requires Tracks(r, exact)
    ensures Tracks(Wrap32(r + d), exact + d)
  {
  }

  lemma MultipleOf(k: int)
    ensures TWO16 * k % TWO16 == 0
  {
  }

  /** The two register updates of the checksum loops, `r + 4*t + d` and `r + t`. */
  lemma TracksMix(r: int, x: int, t: int, y: int, d: int)
    requires Tracks(r, x) && Tracks(t, y)
    ensures Tracks(Wrap32(r + 4 * t + d), x + 4 * y + d)
    ensures Tracks(Wrap32(r + t), x + y)
  {
    assert Tracks(r + 4 * t + d, x + 4 * y + d) && Tracks(r + t, x + y) by {
      var p, q := (r - x) / TWO16, (t - y) / TWO16;
      assert r - x == TWO16 * p && t - y == TWO16 * q;
      MultipleOf(p + 4 * q);
      MultipleOf(p + q);
    }
    TracksAdd(r + 4 * t + d, x + 4 * y + d, 0);
    TracksAdd(r + t, x + y, 0);
  }

  lemma ShiftedHalf(r: int)
    ensures Wrap32(r * TWO16) == r % TWO16 * TWO16
  {
    var q, low := r / TWO16, r % TWO16;
    assert r * TWO16 == low * TWO16 + q * TWO32;
    SmallRemainder(low * TWO16, q);
  }

  lemma SmallRemainder(x: int, q: int)
    requires 0 <= x < TWO32
    ensures Wrap32(x + q * TWO32) == x
  {
  }
}
