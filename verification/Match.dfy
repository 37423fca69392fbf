/** match.c: the search that turns a source file into literals and block references. */
module Match {
  import opened Bytes
  import opened Rolling
  import opened Delta

  const TRADITIONAL_TABLESIZE := 0x1_0000
  const MAX_CHAIN_LEN := 1024

  // ---------- the choice among matching blocks (match.c:281-336) ----------

  datatype Choice = Choice(i: nat, offset: nat, same: bool)

  /** The adjacency hint: prefer block `wantI` when the sums in hand also fit it. */
  function Adjacent(job: Job, flags: seq<bool>, offset: nat, i: nat, wantI: nat, sum: int, sum2: seq<byte>): Choice
    requires |flags| == |job.sums|
  {
    if && i != wantI && wantI < |job.sums|
       && (!job.inPlace || job.sums[wantI].offset >= offset || flags[wantI])
       && sum == job.sums[wantI].sum1 && sum2 == job.sums[wantI].sum2
    then Choice(wantI, offset, false)
    else Choice(i, offset, false)
  }

  /** An in-place update prefers the block that sits at the aligned offset. */
  predicate TryAligned(job: Job, offset: nat, aligned: nat, alignedI: nat)
    requires offset <= |job.src|
  {
    && job.inPlace && alignedI < |job.sums|
    && (offset == aligned
        || (Weak(job.Here(offset)) == 0 && job.WindowLen(offset) == job.blength
            && aligned + job.WindowLen(offset) <= |job.src|))
  }

  /** match.c:281-336.  After the realignment test fails, the sums of the aligned window replace
      those of the current window; the hint is then judged by them. */
  function Choose(job: Job, flags: seq<bool>, offset: nat, i: nat, wantI: nat, aligned: nat, alignedI: nat): Choice
    requires |flags| == |job.sums| && offset <= |job.src|
  {
    var l, sum, sum2 := job.WindowLen(offset), Weak(job.Here(offset)), job.strong(job.Here(offset));
    if !TryAligned(job, offset, aligned, alignedI) then
      Adjacent(job, flags, offset, i, wantI, sum, sum2)
    else if i != alignedI && !job.Hit(alignedI, offset) then
      Adjacent(job, flags, offset, i, wantI, sum, sum2)
    else if offset == aligned then
      Choice(alignedI, offset, true)
    else
      var there := job.Window(aligned, l);
      if Weak(there) != job.sums[alignedI].sum1 then
        Adjacent(job, flags, offset, alignedI, wantI, Weak(there), sum2)
      else if job.strong(there) != job.sums[alignedI].sum2 then
        Adjacent(job, flags, offset, alignedI, wantI, Weak(there), job.strong(there))
      else
        Choice(alignedI, aligned, true)
  }

  /** The one situation in which the hint is judged by the wrong window: the data at `offset` and at
      the aligned offset have equal weak sums and different contents, and the hinted block holds the latter. */
  predicate Misread(job: Job, flags: seq<bool>, offset: nat, i: nat, wantI: nat, aligned: nat, alignedI: nat)
    requires |flags| == |job.sums| && offset <= |job.src|
  {
    && TryAligned(job, offset, aligned, alignedI)
    && offset != aligned
    && (i == alignedI || job.Hit(alignedI, offset))
    && var there := job.Window(aligned, job.WindowLen(offset));
    && Weak(there) == job.sums[alignedI].sum1
    && job.strong(there) != job.sums[alignedI].sum2
    && wantI < |job.sums|
    && (job.sums[wantI].offset >= offset || flags[wantI])
    && job.sums[wantI].sum1 == Weak(there)
    && job.sums[wantI].sum2 == job.strong(there)
  }

  /** One choice of the search: the block found at `offset`, and the hints and marks in force. */
  datatype Look = Look(flags: seq<bool>, offset: nat, i: nat, wantI: nat, aligned: nat, alignedI: nat)

  /** The choice is one the search can make: the block found is the last one that fits the window and is intact, and
      `aligned` is the first block boundary from here. */
  ghost predicate Sees(job: Job, l: Look) {
    && |l.flags| == |job.sums| && l.offset < |job.src| && l.i < |job.sums|
    && job.Hit(l.i, l.offset) && Live(job, l.flags, l.i, l.offset)
    && (forall j :: l.i < j < |job.sums| && Live(job, l.flags, j, l.offset) ==> !job.Hit(j, l.offset))
    && (job.inPlace ==> l.aligned == l.alignedI * job.blength && l.offset <= l.aligned < l.offset + job.blength)
  }

  ghost predicate Wrong(job: Job, l: Look)
    requires Sees(job, l)
  {
    Misread(job, l.flags, l.offset, l.i, l.wantI, l.aligned, l.alignedI)
  }

  ghost function Pick(job: Job, l: Look): Choice
    requires Sees(job, l)
  {
    Choose(job, l.flags, l.offset, l.i, l.wantI, l.aligned, l.alignedI)
  }

  predicate Live(job: Job, flags: seq<bool>, i: nat, offset: nat)
    requires |flags| == |job.sums| && i < |job.sums|
  {
    !job.inPlace || job.sums[i].offset >= offset || flags[i]
  }

  /** The hint is judged by the strong sum of the window at `at`, and the block taken holds either
      that window or the one in hand. */
  lemma AdjacentFits(job: Job, basis: seq<byte>, flags: seq<bool>, offset: nat, i: nat, wantI: nat, sum: int, at: nat)
    requires job.Describes(basis) && job.CollisionFree(basis) && |flags| == |job.sums|
    requires offset < |job.src| && at + job.WindowLen(offset) <= |job.src|
    requires i < |job.sums| && job.Block(basis, i) == job.Here(offset) && Live(job, flags, i, offset)
    ensures var l := job.WindowLen(offset);
      var c := Adjacent(job, flags, offset, i, wantI, sum, job.strong(job.Window(at, l)));
      && c.i < |job.sums| && c.offset == offset && !c.same && Live(job, flags, c.i, offset)
      && job.sums[c.i].len == l
      && (c.i == i || job.Block(basis, c.i) == job.Window(at, l))
  {
  }

  /** Whatever block is chosen fits, is still intact, and holds the source bytes exactly when
      the choice was not misread. */
  lemma ChooseExact(job: Job, basis: seq<byte>, flags: seq<bool>, offset: nat, i: nat, wantI: nat,
                    aligned: nat, alignedI: nat)
    requires job.Describes(basis) && job.CollisionFree(basis) && |flags| == |job.sums|
    requires offset < |job.src| && i < |job.sums| && job.Hit(i, offset) && Live(job, flags, i, offset)
    requires job.inPlace ==> aligned == alignedI * job.blength && offset <= aligned < offset + job.blength
    ensures ChoiceFits(job, flags, offset, Choose(job, flags, offset, i, wantI, aligned, alignedI))
    ensures var c := Choose(job, flags, offset, i, wantI, aligned, alignedI);
      job.Block(basis, c.i) == job.Here(c.offset) <==> !Misread(job, flags, offset, i, wantI, aligned, alignedI)
  {
    var l, sum := job.WindowLen(offset), Weak(job.Here(offset));
    assert job.Block(basis, i) == job.Window(offset, l);
    if !TryAligned(job, offset, aligned, alignedI) || (i != alignedI && !job.Hit(alignedI, offset)) {
      AdjacentFits(job, basis, flags, offset, i, wantI, sum, offset);
    } else {
      assert job.Block(basis, alignedI) == job.Window(offset, l);
      if offset != aligned {
        ReAligned(job, basis, flags, offset, i, wantI, aligned, alignedI);
      }
    }
  }

  /** The third part of the choice: the aligned block fits here, and the aligned window is looked at. */
  lemma ReAligned(job: Job, basis: seq<byte>, flags: seq<bool>, offset: nat, i: nat, wantI: nat,
                  aligned: nat, alignedI: nat)
    requires job.Describes(basis) && job.CollisionFree(basis) && |flags| == |job.sums|
    requires offset < |job.src| && TryAligned(job, offset, aligned, alignedI)
    requires i < |job.sums| && (i == alignedI || job.Hit(alignedI, offset))
    requires job.Block(basis, alignedI) == job.Here(offset)
    requires aligned == alignedI * job.blength && offset < aligned < offset + job.blength
    ensures ChoiceFits(job, flags, offset, Choose(job, flags, offset, i, wantI, aligned, alignedI))
    ensures var c := Choose(job, flags, offset, i, wantI, aligned, alignedI);
      job.Block(basis, c.i) == job.Here(c.offset) <==> !Misread(job, flags, offset, i, wantI, aligned, alignedI)
  {
    var l := job.WindowLen(offset);
    var there := job.Window(aligned, l);
    assert job.Here(aligned) == there;
    if Weak(there) != job.sums[alignedI].sum1 {
      AdjacentFits(job, basis, flags, offset, alignedI, wantI, Weak(there), offset);
    } else if job.strong(there) != job.sums[alignedI].sum2 {
      AdjacentFits(job, basis, flags, offset, alignedI, wantI, Weak(there), aligned);
      assert job.sums[alignedI].sum2 == job.strong(job.Here(offset));
    } else {
      assert there == job.Block(basis, alignedI);
    }
  }

  /** Into a fresh file the block after the last one copied is taken whenever it fits; otherwise the one found is. */
  lemma PrefersAdjacent(job: Job, basis: seq<byte>, l: Look)
    requires job.Describes(basis) && job.CollisionFree(basis) && Sees(job, l) && !job.inPlace
    ensures Pick(job, l).i == if l.wantI < |job.sums| && job.Hit(l.wantI, l.offset) then l.wantI else l.i
  {
    hide Weak;
    if l.wantI < |job.sums| && job.sums[l.wantI].sum2 == job.strong(job.Here(l.offset)) {
      assert job.Window(l.offset, job.WindowLen(l.offset)) == job.Block(basis, l.wantI);
    }
  }

  predicate FullWindows(job: Job, l: Look)
    requires l.offset <= |job.src|
  {
    job.WindowLen(l.offset) == job.blength && l.aligned + job.blength <= |job.src|
  }

  /** In place a block that fits at its own position is kept there, and zeros move on to the boundary when they fit there
      as well. */
  lemma PrefersInPlace(job: Job, l: Look)
    requires Sees(job, l) && job.inPlace && l.alignedI < |job.sums| && job.Hit(l.alignedI, l.offset)
    ensures l.aligned == l.offset ==> Pick(job, l) == Choice(l.alignedI, l.offset, true)
    ensures Weak(job.Here(l.offset)) == 0 && FullWindows(job, l) && job.Hit(l.alignedI, l.aligned) ==>
      Pick(job, l) == Choice(l.alignedI, l.aligned, true)
  {
    hide Weak;
  }

  /** The chosen block has the length of the window it is emitted for, is intact there, and
      moving or marking happens only towards its own position. */
  predicate ChoiceFits(job: Job, flags: seq<bool>, offset: nat, c: Choice)
    requires |flags| == |job.sums|
  {
    && c.i < |job.sums| && offset <= c.offset < offset + job.blength && c.offset < |job.src|
    && job.sums[c.i].len == job.WindowLen(c.offset)
    && Live(job, flags, c.i, c.offset)
    && (c.same ==> job.inPlace && job.sums[c.i].offset == c.offset)
    && (c.offset != offset ==> c.same)
  }

  /** A basis in which all full blocks of weak sum 0 are equal cannot be misread. */
  lemma NeverMisread(job: Job, basis: seq<byte>, flags: seq<bool>, offset: nat, i: nat, wantI: nat,
                     aligned: nat, alignedI: nat)
    requires job.Describes(basis) && job.CollisionFree(basis) && |flags| == |job.sums|
    requires offset < |job.src| && i < |job.sums| && job.Hit(i, offset)
    requires ZeroSumsAgree(job)
    ensures !Misread(job, flags, offset, i, wantI, aligned, alignedI)
  {
    if Misread(job, flags, offset, i, wantI, aligned, alignedI) {
      assert false;
    }
  }

  ghost predicate ZeroSumsAgree(job: Job) {
    forall i, j ::
      && 0 <= i < |job.sums| && 0 <= j < |job.sums|
      && job.sums[i].sum1 == 0 == job.sums[j].sum1 && job.sums[i].len == job.blength == job.sums[j].len
      ==> job.sums[i].sum2 == job.sums[j].sum2
  }

  // A misreading: blocks of 4, and W = 0 1 -2 1 has the weak sum of four zeros.

  const ZERO: seq<byte> := [0, 0, 0, 0]
  const W: seq<byte> := [0, 1, 254, 1]
  const EIGHTS: seq<byte> := [8, 8, 8, 8]
  const NINES: seq<byte> := [9, 9, 9, 9]

  const BAD_BASIS: seq<byte> := NINES + EIGHTS + ZERO + W

  function BadJob(): Job {
    Job([7] + ZERO + ZERO + [1, 254, 1], 4,
        [SumBuf(0, 4, Weak(NINES), NINES), SumBuf(4, 4, Weak(EIGHTS), EIGHTS),
         SumBuf(8, 4, Weak(ZERO), ZERO), SumBuf(12, 4, Weak(W), W)],
        s => s, true)
  }

  lemma BadSums()
    ensures Weak(ZERO) == 0 == Weak(W) && Weak(EIGHTS) != 0 && Weak(NINES) != 0
  {
    Concrete(0, 0, 0, 0);
    Concrete(0, 1, 254, 1);
    Concrete(8, 8, 8, 8);
    Concrete(9, 9, 9, 9);
  }

  lemma BadBlocks()
    ensures BadJob().Block(BAD_BASIS, 0) == NINES && BadJob().Block(BAD_BASIS, 1) == EIGHTS
    ensures BadJob().Block(BAD_BASIS, 2) == ZERO && BadJob().Block(BAD_BASIS, 3) == W
  {
    hide Weak;
  }

  lemma BadWindows()
    ensures BadJob().Here(1) == ZERO == BadJob().Here(5)
    ensures BadJob().Window(8, 4) == W
  {
    hide Weak;
  }

  lemma BadDescribes()
    ensures BadJob().Describes(BAD_BASIS) && BadJob().CollisionFree(BAD_BASIS)
  {
    hide Weak;
    BadBlocks();
  }

  /** Block 2 is copied to offset 1 and the hint becomes block 3.  The source continues with zeros, the
      window at the aligned offset 8 holds W, and W is what gets copied in place of the zeros at offset 5. */
  lemma MisreadExample()
    ensures var job, flags := BadJob(), [false, false, false, false];
      && job.Describes(BAD_BASIS) && job.CollisionFree(BAD_BASIS)
      && job.Hit(2, 1) && Choose(job, flags, 1, 2, 0, 4, 1) == Choice(2, 1, false)
      && job.Hit(2, 5) && Choose(job, flags, 5, 2, 3, 8, 2) == Choice(3, 5, false)
      && job.Block(BAD_BASIS, 3) != job.Here(5)
  {
    BadSums();
    BadBlocks();
    BadWindows();
    BadDescribes();
  }

  lemma Concrete(a: byte, b: byte, c: byte, d: byte)
    ensures Sum([a, b, c, d]) == Signed(a) + Signed(b) + Signed(c) + Signed(d)
    ensures SumOfSums([a, b, c, d]) == 4 * Signed(a) + 3 * Signed(b) + 2 * Signed(c) + Signed(d)
  {
    assert [] + [a, b, c, d] == [a, b, c, d];
    FourSteps([], a, b, c, d);
  }
}
