/** generator.c:777-823, io.c:2025-2084, sender.c:74-130: the header and the sums of a basis file, sent and received. */
module BlockSums {
  import opened Bytes
  import opened Codec
  import opened Rolling
  import opened Delta
  import opened Match
  import opened Emission
  import opened Coverage
  import Receiver
  import opened SumSizes

  const SIZE_MAX := TWO64 - 1
  const SUM_BUF_SIZE := 24

  /** write_sum_head, protocol 27 and later. */
  function PutHead(sum: Header, tail: seq<byte>): seq<byte> {
    EncodeInt(sum.count) + (EncodeInt(sum.blength) + (EncodeInt(sum.s2length) + (EncodeInt(sum.remainder) + tail)))
  }

  /** read_sum_head: Overflow stands for its four errors. */
  function GetHead(xferSumLen: nat, s: seq<byte>): Read<Header> {
    var (count, s) :- DecodeInt(s);
    if count < 0 || (xferSumLen > 0 && count > SIZE_MAX / xferSumLen) || count > SIZE_MAX / SUM_BUF_SIZE then Overflow else
    var (blength, s) :- DecodeInt(s);
    if blength < 0 || blength > MAX_BLOCK_SIZE then Overflow else
    var (s2length, s) :- DecodeInt(s);
    if s2length < 0 || s2length > xferSumLen then Overflow else
    var (remainder, s) :- DecodeInt(s);
    if remainder < 0 || remainder > blength then Overflow else
    Got(Header(count, blength, s2length, remainder), s)
  }

  /** A header made by sum_sizes_sqroot for a file of this length. */
  ghost predicate Made(sum: Header, len: nat, csumLength: int, xferSumLen: int) {
    && 0 < sum.blength <= MAX_BLOCK_SIZE && sum.remainder == len % sum.blength
    && sum.s2length == StrongLength(len, sum.blength, csumLength, xferSumLen)
    && sum.count == len / sum.blength + (if sum.remainder != 0 then 1 else 0) < 0x8000_0000
  }

  lemma StrongBounds(len: nat, blength: nat, csumLength: int, xferSumLen: int)
    requires 0 <= csumLength && 0 <= xferSumLen
    ensures 0 <= StrongLength(len, blength, csumLength, xferSumLen) <= Min(SUM_LENGTH, xferSumLen)
  {
  }

  lemma ManyFit(count: int, xferSumLen: nat)
    requires 0 <= count < 0x8000_0000 && xferSumLen < 0x8000_0000
    ensures xferSumLen > 0 ==> count <= SIZE_MAX / xferSumLen
    ensures count <= SIZE_MAX / SUM_BUF_SIZE
  {
    if xferSumLen > 0 {
      var q := SIZE_MAX / xferSumLen;
      assert SIZE_MAX == q * xferSumLen + SIZE_MAX % xferSumLen;
    }
  }

  /** What the receiver of a header asks of it. */
  predicate Acceptable(sum: Header, xferSumLen: nat) {
    && 0 <= sum.count && 0 <= sum.blength <= MAX_BLOCK_SIZE && 0 <= sum.s2length <= xferSumLen
    && 0 <= sum.remainder <= sum.blength
  }

  predicate AllInt32(sum: Header) {
    IsInt32(sum.count) && IsInt32(sum.blength) && IsInt32(sum.s2length) && IsInt32(sum.remainder)
  }

  /** Whatever four integers arrive: they are taken if and only if they are acceptable. The two tests for overflow of an
      allocation never fire with sizes of 64 bits. */
  lemma HeadChecked(sum: Header, xferSumLen: nat, tail: seq<byte>)
    requires AllInt32(sum) && xferSumLen < 0x8000_0000
    ensures GetHead(xferSumLen, PutHead(sum, tail)) == if Acceptable(sum, xferSumLen) then Got(sum, tail) else Overflow
  {
    hide EncodeInt, DecodeInt;
    if sum.count >= 0 {
      ManyFit(sum.count, xferSumLen);
    }
    var s4 := EncodeInt(sum.remainder) + tail;
    var s3 := EncodeInt(sum.s2length) + s4;
    var s2 := EncodeInt(sum.blength) + s3;
    IntRoundTrip(sum.count, s2);
    IntRoundTrip(sum.blength, s3);
    IntRoundTrip(sum.s2length, s4);
    IntRoundTrip(sum.remainder, tail);
  }

  /** Every header that can be made is accepted, and arrives as it was sent. */
  lemma HeadArrives(sum: Header, len: nat, csumLength: nat, xferSumLen: nat, tail: seq<byte>)
    requires Made(sum, len, csumLength, xferSumLen) && xferSumLen < 0x8000_0000
    ensures GetHead(xferSumLen, PutHead(sum, tail)) == Got(sum, tail)
  {
    hide StrongLength, GetHead, PutHead;
    StrongBounds(len, sum.blength, csumLength, xferSumLen);
    assert 0 <= sum.remainder < sum.blength && 0 <= len / sum.blength;
    HeadChecked(sum, xferSumLen, tail);
  }

  // ---------- the blocks ----------

  function BlockLen(sum: Header, i: int): int {
    if i == sum.count - 1 && sum.remainder != 0 then sum.remainder else sum.blength
  }

  function Start(sum: Header, i: int): int {
    i * sum.blength
  }

  /** The blocks tile the file. */
  lemma Tiling(sum: Header, len: nat, i: nat)
    requires 0 < sum.blength && sum.remainder == len % sum.blength
    requires sum.count == len / sum.blength + if sum.remainder != 0 then 1 else 0
    requires i < sum.count
    ensures 0 < BlockLen(sum, i) <= sum.blength
    ensures 0 <= Start(sum, i) && Start(sum, i) + BlockLen(sum, i) <= len
    ensures Start(sum, i + 1) == Start(sum, i) + sum.blength
    ensures i < sum.count - 1 ==> BlockLen(sum, i) == sum.blength
    ensures i == sum.count - 1 ==> Start(sum, i) + BlockLen(sum, i) == len
    ensures BlockLen(sum, i) == Min(len - Start(sum, i), sum.blength)
  {
    var q, b := len / sum.blength, sum.blength;
    assert len == q * b + sum.remainder;
    assert 0 <= i * b;
    assert (i + 1) * b == i * b + b;
    if i < q {
      Scaled(i + 1, q, b);
    }
    if i + 2 <= sum.count && sum.remainder == 0 {
      Scaled(i + 2, q, b);
      assert (i + 2) * b == i * b + b + b;
    }
  }

  lemma MadeTiling(sum: Header, len: nat, csumLength: int, xferSumLen: int, i: nat)
    requires Made(sum, len, csumLength, xferSumLen) && i < sum.count
    ensures 0 < BlockLen(sum, i) <= sum.blength
    ensures 0 <= Start(sum, i) && Start(sum, i) + BlockLen(sum, i) <= len
    ensures Start(sum, i + 1) == Start(sum, i) + sum.blength
    ensures i < sum.count - 1 ==> BlockLen(sum, i) == sum.blength
    ensures i == sum.count - 1 ==> Start(sum, i) + BlockLen(sum, i) == len
    ensures BlockLen(sum, i) == Min(len - Start(sum, i), sum.blength)
  {
    hide StrongLength;
    Tiling(sum, len, i);
  }

  lemma NoBlocks(sum: Header, len: nat, csumLength: int, xferSumLen: int)
    requires Made(sum, len, csumLength, xferSumLen)
    ensures 0 <= sum.count && (sum.count == 0 <==> len == 0) && Start(sum, 0) == 0
  {
    hide StrongLength;
    assert len == len / sum.blength * sum.blength + len % sum.blength;
  }

  lemma Scaled(a: int, c: int, b: int)
    requires a <= c && b >= 0
    ensures a * b <= c * b
  {
  }

  /** The bytes of the i-th block. */
  function Piece(sum: Header, basis: seq<byte>, i: nat): seq<byte> {
    var o, n := Start(sum, i), BlockLen(sum, i);
    if 0 <= o && 0 <= n && o + n <= |basis| then basis[o..o + n] else []
  }

  /** A weak and a strong sum. */
  datatype Pair = Pair(sum1: int, sum2: seq<byte>)

  function PairOf(sum: Header, basis: seq<byte>, strong: seq<byte> -> seq<byte>, i: nat): Pair {
    Pair(Weak(Piece(sum, basis, i)), strong(Piece(sum, basis, i)))
  }

  /** The loop of generate_and_send_sums: as many blocks as the header says, to the end of the file. */
  method GenerateSums(sum: Header, basis: seq<byte>, strong: seq<byte> -> seq<byte>, ghost csumLength: int, ghost xferSumLen: int)
    returns (ps: seq<Pair>)
    requires Made(sum, |basis|, csumLength, xferSumLen)
    ensures |ps| == sum.count && forall i :: 0 <= i < |ps| ==> ps[i] == PairOf(sum, basis, strong, i)
  {
    hide StrongLength, Weak, Start, Made;
    ps := [];
    var offset, len, i := 0, |basis|, 0;
    NoBlocks(sum, |basis|, csumLength, xferSumLen);
    while i < sum.count
      invariant 0 <= i == |ps| <= sum.count && offset + len == |basis| && 0 <= len
      invariant offset == if i < sum.count then Start(sum, i) else |basis|
      invariant forall k :: 0 <= k < i ==> ps[k] == PairOf(sum, basis, strong, k)
    {
      MadeTiling(sum, |basis|, csumLength, xferSumLen, i);
      var n1 := Min(len, sum.blength);
      var bytes := basis[offset..offset + n1];
      assert bytes == Piece(sum, basis, i);
      len, offset := len - n1, offset + n1;
      ps := ps + [Pair(Weak(bytes), strong(bytes))];
      i := i + 1;
    }
  }

  function PutPairs(ps: seq<Pair>, tail: seq<byte>): seq<byte> {
    if ps == [] then tail else EncodeInt(ps[0].sum1) + (ps[0].sum2 + PutPairs(ps[1..], tail))
  }

  function GetPairs(count: nat, s2length: nat, s: seq<byte>): Read<seq<Pair>> {
    if count == 0 then Got([], s) else
      var (sum1, s) :- DecodeInt(s);
      if |s| < s2length then Short else
        var (more, rest) :- GetPairs(count - 1, s2length, s[s2length..]);
        Got([Pair(Unsigned(sum1, 32), s[..s2length])] + more, rest)
  }

  lemma WordArrives(x: int, tail: seq<byte>)
    requires 0 <= x < TWO32
    ensures DecodeInt(EncodeInt(x) + tail).Got? && DecodeInt(EncodeInt(x) + tail).rest == tail
    ensures Unsigned(DecodeInt(EncodeInt(x) + tail).value, 32) == x
  {
    var y := AsSigned(x, 32);
    Wraps(x);
    hide LE, Word, AsSigned, Unsigned, DecodeInt;
    IntRoundTrip(y, tail);
  }

  lemma Wraps(x: int)
    requires 0 <= x < TWO32
    ensures Unsigned(x, 32) == x == Unsigned(AsSigned(x, 32), 32) && IsInt32(AsSigned(x, 32))
  {
  }

  lemma {:induction false} PairsArrive(ps: seq<Pair>, s2length: nat, tail: seq<byte>)
    requires forall i :: 0 <= i < |ps| ==> 0 <= ps[i].sum1 < TWO32 && |ps[i].sum2| == s2length
    ensures GetPairs(|ps|, s2length, PutPairs(ps, tail)) == Got(ps, tail)
  {
    hide EncodeInt, DecodeInt;
    if ps != [] {
      var more := PutPairs(ps[1..], tail);
      var s := ps[0].sum2 + more;
      WordArrives(ps[0].sum1, s);
      assert s[..s2length] == ps[0].sum2 && s[s2length..] == more;
      PairsArrive(ps[1..], s2length, tail);
      assert ps == [ps[0]] + ps[1..];
    }
  }

  lemma WeakIsWord(w: seq<byte>)
    ensures 0 <= Weak(w) < TWO32
  {
    hide Rolling.Sum, SumOfSums;
  }

  predicate Laid(sum: Header, i: int, p: Pair, b: SumBuf) {
    b.offset == Start(sum, i) && b.len == BlockLen(sum, i) && b.sum1 == p.sum1 && b.sum2 == p.sum2
  }

  /** receive_sums: offsets and lengths follow from the header. */
  method ReceiveSums(sum: Header, ps: seq<Pair>) returns (sums: seq<SumBuf>)
    requires |ps| == sum.count && 0 < sum.blength && 0 <= sum.remainder < sum.blength
    ensures |sums| == sum.count
    ensures forall i :: 0 <= i < |sums| ==> Laid(sum, i, ps[i], sums[i])
  {
    sums := [];
    var offset, i := 0, 0;
    while i < sum.count
      invariant 0 <= i == |sums| <= sum.count && offset >= 0 && (i < sum.count ==> offset == Start(sum, i))
      invariant forall k :: 0 <= k < i ==> Laid(sum, k, ps[k], sums[k])
    {
      var len := if i == sum.count - 1 && sum.remainder != 0 then sum.remainder else sum.blength;
      sums := sums + [SumBuf(offset, len, ps[i].sum1, ps[i].sum2)];
      offset := offset + len;
      i := i + 1;
    }
  }

  /** The sums that arrive describe the basis file to the sender, and the receiver's layout is the same. */
  lemma SumsDescribe(sum: Header, basis: seq<byte>, job: Job, csumLength: int, xferSumLen: int)
    requires Made(sum, |basis|, csumLength, xferSumLen) && job.blength == sum.blength && |job.sums| == sum.count
    requires forall i :: 0 <= i < |job.sums| ==> Laid(sum, i, PairOf(sum, basis, job.strong, i), job.sums[i])
    ensures sum.remainder >= 0
    ensures job.Describes(basis) && Receiver.Agrees(Receiver.SumHead(sum.count, sum.blength, sum.remainder), job)
  {
    hide StrongLength, Weak;
    forall i: nat | i < sum.count
      ensures 1 <= job.sums[i].len <= job.blength && job.sums[i].offset + job.sums[i].len <= |basis|
      ensures job.Block(basis, i) == Piece(sum, basis, i)
    {
      Tiling(sum, |basis|, i);
    }
  }

  /** Equal strong sums of a window of the source and a block of the basis mean equal bytes. */
  ghost predicate NoCollision(src: seq<byte>, basis: seq<byte>, sum: Header, strong: seq<byte> -> seq<byte>) {
    forall o: nat, k: nat, i: nat ::
      o + k <= |src| && i < sum.count && strong(Stretch(src, o, k)) == PairOf(sum, basis, strong, i).sum2 ==>
      Stretch(src, o, k) == Piece(sum, basis, i)
  }

  function Stretch(s: seq<byte>, o: nat, k: nat): seq<byte>
    requires o + k <= |s|
  {
    s[o..o + k]
  }

  /** The digest, cut to the length that is sent. */
  function Cut(digest: seq<byte> -> seq<byte>, n: nat): seq<byte> -> seq<byte> {
    b => if |digest(b)| < n then digest(b) else digest(b)[..n]
  }

  datatype Synced = NotDescribed | Synced(file: Receiver.Received)

  /** One file from end to end: the generator's header and sums over the wire, the sender's search, the receiver's
      replay. The new file is the source, in place whenever all full blocks of weak sum 0 are equal. Only a file of too
      many blocks is not described. */
  method Synchronize(src: seq<byte>, basis: seq<byte>, blockSize: int, digest: seq<byte> -> seq<byte>,
                     csumLength: nat, xferSumLen: nat, inPlace: bool)
    returns (r: Synced, ghost job: Job, ghost ts: seq<Token>, ghost log: seq<Look>)
    requires 0 <= blockSize <= MAX_BLOCK_SIZE && xferSumLen < 0x8000_0000
    requires forall b :: |digest(b)| == xferSumLen
    requires forall sum :: Made(sum, |basis|, csumLength, xferSumLen) && Sized(sum, |basis|, blockSize) && 0 <= sum.s2length ==>
      NoCollision(src, basis, sum, Cut(digest, sum.s2length))
    ensures r.Synced? ==> job.src == src && job.inPlace == inPlace && job.Describes(basis)
    ensures r.Synced? ==> r.file == Receiver.File(job.Replay(basis, ts)) && |r.file.data| == |src|
    ensures r.Synced? ==> Logged(job, ts, log) && Thorough(job, ts, log) && (r.file.data == src <==> AllRight(job, log))
    ensures r.Synced? && (!inPlace || ZeroSumsAgree(job)) ==> r.file.data == src
    ensures r.NotDescribed? ==> |basis| >= 0x7fff_ffff
  {
    hide Made, Sized, NoCollision, Cut, Job.Describes, ZeroSumsAgree, Logged, Thorough, AllRight, Job.Replay;
    ts, log := [], [];
    var sum := MakeHead(|basis|, blockSize, csumLength, xferSumLen);
    job := Job(src, 0, [], digest, inPlace);
    if sum.count < 0 {
      return NotDescribed, job, ts, log;
    }
    CutLength(digest, xferSumLen, sum.s2length);
    var file;
    file, job, ts, log := Described(src, basis, sum, Cut(digest, sum.s2length), csumLength, xferSumLen, inPlace);
    r := Synced(file);
  }

  /** The block length that sum_sizes_sqroot chooses. */
  ghost predicate Sized(sum: Header, len: nat, blockSize: int) {
    && (blockSize != 0 ==> sum.blength == blockSize)
    && (blockSize == 0 && len < Sq(704) ==> sum.blength == BLOCK_SIZE)
    && (blockSize == 0 && Sq(704) <= len < Sq(MAX_BLOCK_SIZE) ==> NearRoot(sum.blength, len))
    && (blockSize == 0 && Sq(MAX_BLOCK_SIZE) <= len ==> sum.blength == MAX_BLOCK_SIZE)
  }

  lemma CutLength(digest: seq<byte> -> seq<byte>, n: nat, k: nat)
    requires k <= n && forall b :: |digest(b)| == n
    ensures forall b :: |Cut(digest, k)(b)| == k
  {
  }

  lemma ManyBlocks(len: nat, b: int)
    requires 0 < b && len / b >= 0x7fff_ffff
    ensures len >= 0x7fff_ffff
  {
    Scaled(1, b, len / b);
    assert b * (len / b) == len / b * b;
    assert len == len / b * b + len % b;
  }

  /** The header that the generator sends; a file of too many blocks gets none. */
  method MakeHead(len: nat, blockSize: int, csumLength: nat, xferSumLen: nat) returns (sum: Header)
    requires 0 <= blockSize <= MAX_BLOCK_SIZE
    ensures if sum.count < 0 then len >= 0x7fff_ffff
            else Made(sum, len, csumLength, xferSumLen) && Sized(sum, len, blockSize) && 0 <= sum.s2length <= xferSumLen
  {
    hide StrongLength, Sq, NearRoot;
    sum := SumSizesSqroot(len, blockSize, csumLength, xferSumLen);
    StrongBounds(len, sum.blength, csumLength, xferSumLen);
    if sum.count < 0 {
      ManyBlocks(len, sum.blength);
    }
  }

  /** The same from a header on. */
  method Described(src: seq<byte>, basis: seq<byte>, sum: Header, strong: seq<byte> -> seq<byte>,
                   ghost csumLength: nat, xferSumLen: nat, inPlace: bool)
    returns (r: Receiver.Received, ghost job: Job, ghost ts: seq<Token>, ghost log: seq<Look>)
    requires Made(sum, |basis|, csumLength, xferSumLen) && xferSumLen < 0x8000_0000
    requires forall b :: |strong(b)| == sum.s2length
    requires NoCollision(src, basis, sum, strong)
    ensures job.src == src && job.inPlace == inPlace && job.Describes(basis)
    ensures r == Receiver.File(job.Replay(basis, ts)) && Logged(job, ts, log) && Thorough(job, ts, log)
    ensures r.data == src <==> AllRight(job, log)
    ensures |r.data| == |src| && (!inPlace || ZeroSumsAgree(job) ==> r.data == src)
  {
    hide Made, NoCollision, GetHead, PutHead, GetPairs, PutPairs, Job.CollisionFree, Job.Describes,
         Receiver.Agrees, PairOf, Laid, ZeroSumsAgree, Logged, Thorough, AllRight,
         Job.Replay, Job.OutLen, Job.InPlaceSafe, Job.LiteralsWithin;
    MadeBounds(sum, |basis|, csumLength, xferSumLen);
    var ps := GenerateSums(sum, basis, strong, csumLength, xferSumLen);
    var wire := PutHead(sum, PutPairs(ps, []));
    HeadArrives(sum, |basis|, csumLength, xferSumLen, PutPairs(ps, []));
    PairsFit(sum, basis, strong, ps);
    PairsArrive(ps, sum.s2length, []);
    var head := GetHead(xferSumLen, wire);
    var pairs := GetPairs(head.value.count, head.value.s2length, head.rest);
    var sums := ReceiveSums(head.value, pairs.value);
    var j := Job(src, head.value.blength, sums, strong, inPlace);
    SumsDescribe(sum, basis, j, csumLength, xferSumLen);
    Collisions(sum, basis, j, csumLength, xferSumLen);
    ghost var written;
    r, ts, log, written := Receiver.Transfer(j, Receiver.SumHead(sum.count, sum.blength, sum.remainder), basis);
    job := j;
  }

  lemma MadeBounds(sum: Header, len: nat, csumLength: nat, xferSumLen: nat)
    requires Made(sum, len, csumLength, xferSumLen)
    ensures 0 <= sum.count < 0x8000_0000 && 0 < sum.blength && 0 <= sum.remainder < sum.blength && 0 <= sum.s2length
  {
    StrongBounds(len, sum.blength, csumLength, xferSumLen);
    hide StrongLength;
    assert len / sum.blength >= 0;
  }

  lemma PairsFit(sum: Header, basis: seq<byte>, strong: seq<byte> -> seq<byte>, ps: seq<Pair>)
    requires forall b :: |strong(b)| == sum.s2length
    requires forall i :: 0 <= i < |ps| ==> ps[i] == PairOf(sum, basis, strong, i)
    ensures forall i :: 0 <= i < |ps| ==> 0 <= ps[i].sum1 < TWO32 && |ps[i].sum2| == sum.s2length
  {
    hide Weak, Piece;
    forall i | 0 <= i < |ps| ensures 0 <= ps[i].sum1 < TWO32 {
      WeakIsWord(Piece(sum, basis, i));
    }
  }

  lemma Collisions(sum: Header, basis: seq<byte>, job: Job, csumLength: int, xferSumLen: int)
    requires Made(sum, |basis|, csumLength, xferSumLen) && job.blength == sum.blength && |job.sums| == sum.count
    requires forall i :: 0 <= i < |job.sums| ==> Laid(sum, i, PairOf(sum, basis, job.strong, i), job.sums[i])
    requires NoCollision(job.src, basis, sum, job.strong)
    ensures job.CollisionFree(basis)
  {
    hide StrongLength, Weak, Made;
    forall o: nat, k: nat, i: nat | o + k <= |job.src| && i < |job.sums| && job.strong(job.Window(o, k)) == job.sums[i].sum2
      ensures job.Window(o, k) == job.Block(basis, i)
    {
      MadeTiling(sum, |basis|, csumLength, xferSumLen, i);
      assert Laid(sum, i, PairOf(sum, basis, job.strong, i), job.sums[i]);
      assert job.Window(o, k) == Stretch(job.src, o, k);
    }
  }
}
