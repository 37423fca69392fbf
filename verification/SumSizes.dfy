/** generator.c:682-758, 777-823; io.c:2025-2084: how a basis file is cut into blocks, and the header that says so. */
module SumSizes {
  import opened Bytes

  const BLOCK_SIZE := 700
  const MAX_BLOCK_SIZE := 0x2_0000
  const SUM_LENGTH := 16
  const BLOCKSUM_BIAS := 10

  function Log2(n: nat): nat {
    if n < 2 then 0 else 1 + Log2(n / 2)
  }

  function Sq(x: int): int {
    x * x
  }

  /** The block length aimed at: a multiple of 8 next to the square root. */
  ghost predicate NearRoot(b: int, len: int) {
    b % 8 == 0 && b >= 0 && Sq(b) <= len < Sq(b + 8)
  }

  /** len, counted in units of q. */
  ghost predicate Bracket(q: int, l: int, len: int) {
    q >= 1 && l >= 0 && q * l <= len < q * (l + 1)
  }

  lemma Quartered(q: int, l: int, len: int)
    requires Bracket(q, l, len)
    ensures Bracket(4 * q, l / 4, len)
  {
    var m := l / 4;
    var r := l - 4 * m;
    assert q * l == q * (4 * m) + q * r;
    assert q * (4 * m + 4) == q * (l + 1) + q * (3 - r);
  }

  lemma Small(q: int, l: int, len: int)
    requires Bracket(q, l, len) && 1 <= l <= 3
    ensures q <= len < 4 * q
  {
    assert q <= q * l && q * (l + 1) <= q * 4;
  }

  lemma SqDouble(c: int)
    ensures Sq(2 * c) == 4 * Sq(c)
  {
  }

  /** The largest power of 2 whose square is not above len. */
  method RootPower(len: int) returns (c: int)
    requires len > 0
    ensures c > 0 && IsPowerOf2(c) && Sq(c) <= len < Sq(2 * c)
  {
    hide Bracket;
    c := 1;
    var l := len;
    StartBracket(len);
    assert Sq(1) == 1;
    hide Sq;
    while l / 4 != 0
      invariant c > 0 && IsPowerOf2(c) && l > 0 && Bracket(Sq(c), l, len)
      decreases l
    {
      Quartered(Sq(c), l, len);
      SqDouble(c);
      l, c := l / 4, c * 2;
    }
    Small(Sq(c), l, len);
    SqDouble(c);
  }

  lemma StartBracket(len: int)
    requires len > 0
    ensures Bracket(1, len, len)
  {
  }

  function Prod(a: int, k: int): int {
    a * k
  }

  lemma Halved(c: int, k: int)
    ensures Prod(c, 2 * k) == Prod(2 * c, k) && Prod(c, 2 * k + 1) == Prod(2 * c, k) + c
  {
  }

  lemma Multiple8(k: int)
    ensures Prod(8, k) % 8 == 0
  {
  }

  /** generator.c:713-724: the bits of the root from the top down to 8. A bit is set in, and cleared from, a multiple
      of twice the bit. */
  method RootDownTo8(len: int, top: int) returns (b: int)
    requires top >= 8 && IsPowerOf2(top) && 0 < len < Sq(2 * top)
    ensures NearRoot(b, len) && b < 2 * top
  {
    b := 0;
    var c := top;
    ghost var k := 0;
    assert Sq(0) == 0 && Prod(2 * top, 0) == 0;
    hide Sq, Prod;
    while c >= 8
      invariant c >= 4 && IsPowerOf2(c) && b == Prod(2 * c, k) && 0 <= b && b + 2 * c <= 2 * top
      invariant Sq(b) <= len < Sq(b + 2 * c)
      decreases c
    {
      Halved(c, k);
      b := b + c;
      k := 2 * k + 1;
      if len < Sq(b) {
        b := b - c;
        k := k - 1;
      }
      c := c / 2;
    }
    assert c == 4;
    Multiple8(k);
  }

  // ---------- the header ----------

  datatype Header = Header(count: int, blength: int, s2length: int, remainder: int)

  /** generator.c:703-725, protocol 30: the user's choice, or near the square root between 700 and 2^17. */
  method BlockLength(len: int, blockSize: int) returns (b: int)
    requires 0 <= len && 0 <= blockSize <= MAX_BLOCK_SIZE
    ensures 0 < b <= MAX_BLOCK_SIZE
    ensures blockSize != 0 ==> b == blockSize
    ensures blockSize == 0 && len < Sq(704) ==> b == BLOCK_SIZE
    ensures blockSize == 0 && Sq(704) <= len < Sq(MAX_BLOCK_SIZE) ==> NearRoot(b, len) && b > BLOCK_SIZE
    ensures blockSize == 0 && Sq(MAX_BLOCK_SIZE) <= len ==> b == MAX_BLOCK_SIZE
  {
    hide Sq;
    SquaresAre();
    if blockSize != 0 {
      return blockSize;
    }
    if len <= BLOCK_SIZE * BLOCK_SIZE {
      return BLOCK_SIZE;
    }
    var c := RootPower(len);
    if c >= MAX_BLOCK_SIZE {
      Monotone(MAX_BLOCK_SIZE, c);
      return MAX_BLOCK_SIZE;
    }
    BelowMax(c);
    Monotone(2 * c, MAX_BLOCK_SIZE);
    AtLeast8(c, len);
    b := RootDownTo8(len, c);
    RootBounds(b, len);
    b := if b > BLOCK_SIZE then b else BLOCK_SIZE;
  }

  lemma SquaresAre()
    ensures Sq(704) == 495616 && Sq(MAX_BLOCK_SIZE) == 0x4_0000_0000
  {
  }

  lemma Monotone(a: int, b: int)
    requires 0 <= a <= b
    ensures Sq(a) <= Sq(b)
  {
    assert a * a <= a * b <= b * b;
  }

  lemma AtLeast8(c: int, len: int)
    requires c > 0 && 490000 < len < Sq(2 * c)
    ensures c >= 8
  {
    if c < 8 {
      Monotone(2 * c, 16);
    }
  }

  lemma BelowMax(c: int)
    requires 0 < c < MAX_BLOCK_SIZE && IsPowerOf2(c)
    ensures 2 * c <= MAX_BLOCK_SIZE
  {
    ExpIsPower(17);
    ExpMax();
    HalfWay(c, 0x2_0000);
  }

  function Exp(n: nat): nat {
    if n == 0 then 1 else 2 * Exp(n - 1)
  }

  lemma ExpMax()
    ensures Exp(17) == MAX_BLOCK_SIZE
  {
    assert Exp(2) == 4;
    assert Exp(4) == 16;
    assert Exp(6) == 64;
    assert Exp(8) == 256;
    assert Exp(10) == 1024;
    assert Exp(12) == 4096;
    assert Exp(14) == 0x4000;
    assert Exp(16) == 0x1_0000;
  }

  lemma {:induction false} ExpIsPower(n: nat)
    ensures Exp(n) > 0 && IsPowerOf2(Exp(n))
  {
    if n > 0 {
      ExpIsPower(n - 1);
      assert Exp(n) / 2 == Exp(n - 1);
    }
  }

  /** Different powers of 2 are a factor of 2 apart. */
  lemma {:induction false} HalfWay(a: int, b: int)
    requires 0 < a < b && IsPowerOf2(a) && IsPowerOf2(b)
    ensures 2 * a <= b
    decreases a
  {
    if a > 1 {
      HalfWay(a / 2, b / 2);
    }
  }

  lemma RootBounds(b: int, len: int)
    requires NearRoot(b, len) && len > 490000
    ensures len < Sq(704) ==> b <= BLOCK_SIZE
    ensures len >= Sq(704) ==> b > BLOCK_SIZE
  {
    if len >= Sq(704) {
      if b + 8 <= 704 {
        Monotone(b + 8, 704);
      }
    } else if b >= 704 {
      Monotone(704, b);
    }
  }

  /** C division. */
  function TruncDiv(a: int, b: nat): int
    requires b > 0
  {
    if a >= 0 then a / b else -(-a / b)
  }

  function Max(a: int, b: int): int {
    if a > b then a else b
  }

  function Min(a: int, b: int): int {
    if a < b then a else b
  }

  /** How many bytes of strong sum are sent: enough bits for the length of the file over the length of a block. */
  function StrongLength(len: nat, blength: nat, csumLength: int, xferSumLen: int): int {
    var most := Min(SUM_LENGTH, xferSumLen);
    if csumLength == SUM_LENGTH then most
    else
      var bits := Max(0, BLOCKSUM_BIAS + 2 * Log2(len) - Log2(blength));
      Min(Max(TruncDiv(bits + 1 - 32 + 7, 8), csumLength), most)
  }

  /** generator.c:727-741. */
  method StrongSize(len: nat, blength: nat, csumLength: int, xferSumLen: int) returns (n: int)
    requires blength > 0
    ensures n == StrongLength(len, blength, csumLength, xferSumLen)
  {
    var most := Min(SUM_LENGTH, xferSumLen);
    if csumLength == SUM_LENGTH {
      return most;
    }
    var b, l, c := BLOCKSUM_BIAS, len, blength;
    while l / 2 != 0
      invariant b + 2 * Log2(l) == BLOCKSUM_BIAS + 2 * Log2(len) && b >= 0
      decreases l
    {
      l, b := l / 2, b + 2;
    }
    ghost var all := b;
    while c / 2 != 0 && b != 0
      invariant c > 0 && b >= 0 && b - Log2(c) == all - Log2(blength)
      decreases c
    {
      c, b := c / 2, b - 1;
    }
    n := TruncDiv(b + 1 - 32 + 7, 8);
    n := Max(n, csumLength);
    n := Min(n, most);
  }

  // ---------- how strong the strong sum is ----------

  lemma {:induction false} ExpSum(a: nat, b: nat)
    ensures Exp(a + b) == Exp(a) * Exp(b)
  {
    hide Exp;
    ExpStep(a);
    ExpStep(a + b);
    if a > 0 {
      ExpSum(a - 1, b);
      Regroup(Exp(a - 1), Exp(b));
    }
  }

  lemma ExpStep(n: nat)
    ensures Exp(n) == if n == 0 then 1 else 2 * Exp(n - 1)
  {
  }

  lemma Regroup(x: nat, y: nat)
    ensures 2 * (x * y) == 2 * x * y
  {
  }

  lemma {:induction false} ExpGrows(a: nat, b: nat)
    requires a <= b
    ensures 0 < Exp(a) <= Exp(b)
  {
    if a < b {
      ExpGrows(a, b - 1);
    } else if a > 0 {
      ExpGrows(a - 1, a - 1);
    }
  }

  /** The halving loops count to the exponent of the highest bit. */
  lemma {:induction false} Log2Is(n: nat)
    requires n > 0
    ensures Exp(Log2(n)) <= n < Exp(Log2(n) + 1)
  {
    if n >= 2 {
      Log2Is(n / 2);
    }
  }

  lemma Log2Zero()
    ensures Log2(0) == 0
  {
  }

  lemma Products(a: nat, x: nat, b: nat, y: nat)
    requires a <= x && b <= y
    ensures a * b <= x * y && (a < x && b < y ==> a * b < x * y)
  {
    assert a * b <= x * b <= x * y;
    if a < x && b < y {
      assert x * y == x * b + x * (y - b);
    }
  }

  /** len * len in units of a power of 2. */
  lemma SquareBits(k: nat, len: nat)
    requires len > 0
    ensures Exp(k + 2 * Log2(len)) <= Exp(k) * (len * len) < Exp(k + 2 * Log2(len) + 2)
  {
    hide Exp, Log2;
    var a := Log2(len);
    Log2Is(len);
    ExpGrows(k, k);
    Products(Exp(a), len, Exp(a), len);
    Products(len, Exp(a + 1), len, Exp(a + 1));
    ExpSum(a, a);
    ExpSum(a + 1, a + 1);
    ExpSum(k, a + a);
    ExpSum(k, a + 1 + (a + 1));
    Products(Exp(k), Exp(k), Exp(a + a), len * len);
    Products(Exp(k), Exp(k), len * len + 1, Exp(a + 1 + (a + 1)));
    assert Exp(k) * (len * len + 1) == Exp(k) * (len * len) + Exp(k);
    assert k + (a + a) == k + 2 * a && k + (a + 1 + (a + 1)) == k + 2 * a + 2;
  }

  lemma BlockBits(k: nat, blength: nat)
    requires blength > 0
    ensures Exp(k + Log2(blength)) <= Exp(k) * blength < Exp(k + Log2(blength) + 1)
  {
    hide Exp, Log2;
    var c := Log2(blength);
    Log2Is(blength);
    ExpGrows(k, k);
    ExpSum(k, c);
    ExpSum(k, c + 1);
    Products(Exp(k), Exp(k), Exp(c), blength);
    Products(Exp(k), Exp(k), blength + 1, Exp(c + 1));
    assert Exp(k) * (blength + 1) == Exp(k) * blength + Exp(k);
  }

  /** Rounding up to bytes, in bits. */
  lemma Rounded(bits: nat, n: int)
    ensures TruncDiv(bits + 1 - 32 + 7, 8) <= n ==> bits <= 8 * n + 31 && n >= -3
    ensures TruncDiv(bits + 1 - 32 + 7, 8) >= n >= 1 ==> bits >= 8 * n + 24
  {
  }

  /** The weak sum's 32 bits and the strong sum's 8 * n make up for the square of the file over a block, with a bias of
      10 bits: never less unless the digest ends, and never a byte more unless more is asked for. */
  lemma StrongEnough(len: nat, blength: nat, csumLength: int, xferSumLen: int)
    requires blength > 0
    ensures var n, most := StrongLength(len, blength, csumLength, xferSumLen), Min(SUM_LENGTH, xferSumLen);
      && n <= most && (csumLength == SUM_LENGTH ==> n == most) && (csumLength <= most ==> csumLength <= n)
      && (len == 0 && 0 <= csumLength ==> n == Min(csumLength, most))
      && (len > 0 && n < most ==> n >= -3 && Exp(8) * (len * len) < Exp(8 * n + 31) * blength)
      && (len > 0 && n > csumLength >= 0 && csumLength != SUM_LENGTH ==> Exp(8 * n + 23) * blength < Exp(10) * (len * len))
  {
    hide Exp, Log2, TruncDiv;
    var n, most := StrongLength(len, blength, csumLength, xferSumLen), Min(SUM_LENGTH, xferSumLen);
    if csumLength != SUM_LENGTH {
      var bits := Max(0, BLOCKSUM_BIAS + 2 * Log2(len) - Log2(blength));
      Rounded(bits, n);
      if len == 0 {
        assert Log2(0) == 0 by { Log2Zero(); }
        Rounded(bits, TruncDiv(bits + 1 - 32 + 7, 8));
      } else if n < most {
        SquareBits(8, len);
        BlockBits(8 * n + 31, blength);
        ExpGrows(8 + 2 * Log2(len) + 2, 8 * n + 31 + Log2(blength));
      }
      if len > 0 && n > csumLength >= 0 {
        SquareBits(10, len);
        BlockBits(8 * n + 23, blength);
        ExpGrows(8 * n + 23 + Log2(blength) + 1, 10 + 2 * Log2(len));
      }
    }
  }

  /** sum_sizes_sqroot, generator.c:697-758, protocol 30: count -1 says that the file cannot be described. */
  method SumSizesSqroot(len: int, blockSize: int, csumLength: int, xferSumLen: int) returns (sum: Header)
    requires 0 <= blockSize <= MAX_BLOCK_SIZE
    ensures len < 0 ==> sum.count == -1
    ensures len >= 0 ==>
      && 0 < sum.blength <= MAX_BLOCK_SIZE && sum.remainder == len % sum.blength
      && sum.s2length == StrongLength(len, sum.blength, csumLength, xferSumLen)
      && var n := len / sum.blength + if sum.remainder != 0 then 1 else 0;
         sum.count == if n < 0x8000_0000 then n else -1
    ensures len >= 0 && blockSize != 0 ==> sum.blength == blockSize
    ensures blockSize == 0 && 0 <= len < Sq(704) ==> sum.blength == BLOCK_SIZE
    ensures blockSize == 0 && Sq(704) <= len < Sq(MAX_BLOCK_SIZE) ==> NearRoot(sum.blength, len)
    ensures blockSize == 0 && Sq(MAX_BLOCK_SIZE) <= len ==> sum.blength == MAX_BLOCK_SIZE
  {
    hide StrongLength, Sq, NearRoot;
    SquaresAre();
    if len < 0 {
      return Header(-1, 0, 0, 0);
    }
    var b := BlockLength(len, blockSize);
    var s2 := StrongSize(len, b, csumLength, xferSumLen);
    var n := len / b + if len % b != 0 then 1 else 0;
    sum := Header(if n < 0x8000_0000 then n else -1, b, s2, len % b);
  }
}
