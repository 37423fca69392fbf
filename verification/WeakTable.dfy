/** What the chained hash table of match.c holds, and how a walk along a chain keeps it. */
module WeakTable {
  import opened Bytes
  import opened Registers
  import opened Rolling
  import opened Delta
  import opened Match

  function Bucket(tablesize: nat, sum: int): int
    requires tablesize > 0
  {
    if tablesize == TRADITIONAL_TABLESIZE then (sum % TWO16 + sum / TWO16) % TWO16 else sum % tablesize
  }

  /** How many of the blocks lo.. carry the weak sum. */
  function CountWeak(sums: seq<SumBuf>, sum: int, lo: nat): nat
    requires lo <= |sums|
    decreases |sums| - lo
  {
    if lo == |sums| then 0 else CountWeak(sums, sum, lo + 1) + if sums[lo].sum1 == sum then 1 else 0
  }

  /** `j` is where a chain continues below `hi`: the next block of the bucket that is not dead. */
  ghost predicate Link(job: Job, tablesize: nat, flags: seq<bool>, offset: nat, t: int, hi: int, j: int)
    requires tablesize > 0 && |flags| == |job.sums| && 0 <= hi <= |job.sums|
  {
    && -1 <= j < hi
    && (0 <= j ==> Bucket(tablesize, job.sums[j].sum1) == t)
    && forall m :: j < m < hi && Bucket(tablesize, job.sums[m].sum1) == t ==> !Live(job, flags, m, offset)
  }

  /** Every bucket head and every chain field is such a link. */
  ghost predicate Linked(job: Job, tablesize: nat, heads: seq<int>, chain: seq<int>, flags: seq<bool>, offset: nat)
    requires tablesize > 0
  {
    && tablesize <= |heads| && |chain| == |flags| == |job.sums|
    && (forall t :: 0 <= t < tablesize ==> Link(job, tablesize, flags, offset, t, |job.sums|, heads[t]))
    && (forall i :: 0 <= i < |chain| ==>
          Link(job, tablesize, flags, offset, Bucket(tablesize, job.sums[i].sum1), i, chain[i]))
  }

  /** The same with only the first n blocks entered. */
  ghost predicate Built(job: Job, tablesize: nat, heads: seq<int>, chain: seq<int>, flags: seq<bool>, n: nat)
    requires tablesize > 0
  {
    && n <= |job.sums| && tablesize <= |heads| && |chain| == |flags| == |job.sums|
    && (forall t :: 0 <= t < tablesize ==> Link(job, tablesize, flags, 0, t, n, heads[t]))
    && (forall i :: 0 <= i < n ==> Link(job, tablesize, flags, 0, Bucket(tablesize, job.sums[i].sum1), i, chain[i]))
  }

  lemma BuildStep(job: Job, tablesize: nat, heads: seq<int>, chain: seq<int>, flags: seq<bool>, n: nat)
    requires tablesize > 0 && n < |job.sums| && Built(job, tablesize, heads, chain, flags, n)
    ensures var t := Bucket(tablesize, job.sums[n].sum1);
      && 0 <= t < tablesize
      && Built(job, tablesize, heads[t := n], chain[n := heads[t]], flags, n + 1)
  {
    var t := Bucket(tablesize, job.sums[n].sum1);
    forall u | 0 <= u < tablesize
      ensures Link(job, tablesize, flags, 0, u, n + 1, if u == t then n else heads[u])
    {
      assert Link(job, tablesize, flags, 0, u, n, heads[u]);
    }
  }

  /** A walk of bucket `t` has come to `i` through the field `prev` (-1: the bucket head), and none of the
      live blocks it passed is a hit. */
  ghost predicate Walk(job: Job, tablesize: nat, heads: seq<int>, chain: seq<int>, flags: seq<bool>, offset: nat,
                       t: int, prev: int, i: int)
    requires tablesize > 0 && offset <= |job.src|
  {
    && Linked(job, tablesize, heads, chain, flags, offset)
    && 0 <= t < tablesize && -1 <= i < |chain| && -1 <= prev < |chain|
    && (prev >= 0 ==> i < prev)
    && i == (if prev < 0 then heads[t] else chain[prev])
    && (i >= 0 ==> Bucket(tablesize, job.sums[i].sum1) == t)
    && forall j :: i < j < |chain| && Bucket(tablesize, job.sums[j].sum1) == t ==>
         !Live(job, flags, j, offset) || !job.Hit(j, offset)
  }

  /** Moving forward, and marking a block that is still live, kills no block that a link may not skip. */
  lemma StillLinked(job: Job, tablesize: nat, heads: seq<int>, chain: seq<int>, flags: seq<bool>, offset: nat,
                    flags': seq<bool>, offset': nat)
    requires tablesize > 0 && Linked(job, tablesize, heads, chain, flags, offset)
    requires offset <= offset' && |flags'| == |flags|
    requires forall i :: 0 <= i < |flags| && !Live(job, flags, i, offset) ==> !flags'[i]
    ensures Linked(job, tablesize, heads, chain, flags', offset')
  {
    forall t | 0 <= t < tablesize
      ensures Link(job, tablesize, flags', offset', t, |job.sums|, heads[t])
    {
      assert Link(job, tablesize, flags, offset, t, |job.sums|, heads[t]);
    }
    forall i | 0 <= i < |chain|
      ensures Link(job, tablesize, flags', offset', Bucket(tablesize, job.sums[i].sum1), i, chain[i])
    {
      assert Link(job, tablesize, flags, offset, Bucket(tablesize, job.sums[i].sum1), i, chain[i]);
    }
  }

  lemma LinkedShape(job: Job, tablesize: nat, heads: seq<int>, chain: seq<int>, flags: seq<bool>, offset: nat)
    requires tablesize > 0 && Linked(job, tablesize, heads, chain, flags, offset)
    ensures tablesize <= |heads| && |chain| == |flags| == |job.sums|
  {
  }

  lemma WalkBounds(job: Job, tablesize: nat, heads: seq<int>, chain: seq<int>, flags: seq<bool>, offset: nat,
                   t: int, prev: int, i: int)
    requires tablesize > 0 && offset <= |job.src|
    requires Walk(job, tablesize, heads, chain, flags, offset, t, prev, i)
    ensures 0 <= t < |heads| && -1 <= prev < |chain| && -1 <= i < |chain| == |flags| == |job.sums|
    ensures Linked(job, tablesize, heads, chain, flags, offset)
    ensures i >= 0 ==> -1 <= chain[i] < i
    ensures i < 0 ==> forall j :: 0 <= j < |chain| && Bucket(tablesize, job.sums[j].sum1) == t ==>
              !Live(job, flags, j, offset) || !job.Hit(j, offset)
  {
    if i >= 0 {
      assert Link(job, tablesize, flags, offset, t, i, chain[i]);
    }
  }

  lemma WalkStart(job: Job, tablesize: nat, heads: seq<int>, chain: seq<int>, flags: seq<bool>, offset: nat, t: int)
    requires tablesize > 0 && offset <= |job.src| && 0 <= t < tablesize
    requires Linked(job, tablesize, heads, chain, flags, offset)
    ensures Walk(job, tablesize, heads, chain, flags, offset, t, -1, heads[t])
  {
    assert Link(job, tablesize, flags, offset, t, |job.sums|, heads[t]);
  }

  /** No usable block passed on the way is a hit. */
  lemma WalkPassed(job: Job, tablesize: nat, heads: seq<int>, chain: seq<int>, flags: seq<bool>, offset: nat,
                   t: int, prev: int, i: int)
    requires tablesize > 0 && offset <= |job.src| && t == Bucket(tablesize, Weak(job.Here(offset)))
    requires Walk(job, tablesize, heads, chain, flags, offset, t, prev, i)
    ensures |flags| == |job.sums|
    ensures forall j :: 0 <= j < |job.sums| && i < j && Live(job, flags, j, offset) ==> !job.Hit(j, offset)
  {
    hide Weak, Bucket;
  }

  /** A live block that is no hit: move on to the field after it. */
  lemma WalkOn(job: Job, tablesize: nat, heads: seq<int>, chain: seq<int>, flags: seq<bool>, offset: nat,
               t: int, prev: int, i: int)
    requires tablesize > 0 && offset <= |job.src|
    requires Walk(job, tablesize, heads, chain, flags, offset, t, prev, i) && i >= 0 && !job.Hit(i, offset)
    ensures Walk(job, tablesize, heads, chain, flags, offset, t, i, chain[i])
  {
    assert Link(job, tablesize, flags, offset, t, i, chain[i]);
  }

  /** A dead block is taken out of the chain; every link survives. */
  lemma Unlink(job: Job, tablesize: nat, heads: seq<int>, chain: seq<int>, flags: seq<bool>, offset: nat,
               t: int, prev: int, i: int)
    requires tablesize > 0 && offset <= |job.src|
    requires Walk(job, tablesize, heads, chain, flags, offset, t, prev, i) && i >= 0 && !Live(job, flags, i, offset)
    ensures prev < 0 ==> Walk(job, tablesize, heads[t := chain[i]], chain, flags, offset, t, prev, chain[i])
    ensures prev >= 0 ==>
      && chain[prev := chain[i]][i] == chain[i]
      && Walk(job, tablesize, heads, chain[prev := chain[i]], flags, offset, t, prev, chain[i])
  {
    assert Link(job, tablesize, flags, offset, t, i, chain[i]);
    if prev < 0 {
      assert Link(job, tablesize, flags, offset, t, |job.sums|, heads[t]);
    } else {
      assert Link(job, tablesize, flags, offset, Bucket(tablesize, job.sums[prev].sum1), prev, chain[prev]);
    }
  }

  lemma {:induction false} CountGrows(sums: seq<SumBuf>, sum: int, lo: nat, hi: nat)
    requires lo <= hi <= |sums|
    ensures CountWeak(sums, sum, hi) <= CountWeak(sums, sum, lo)
    decreases hi - lo
  {
    if lo < hi {
      CountGrows(sums, sum, lo + 1, hi);
    }
  }

  lemma CountAll(sums: seq<SumBuf>, sum: int, i: nat)
    requires i < |sums| && sums[i].sum1 == sum
    ensures CountWeak(sums, sum, 0) >= CountWeak(sums, sum, i + 1) + 1
  {
    CountGrows(sums, sum, 0, i);
  }

  lemma BucketOfRegisters(tablesize: nat, s1: int, s2: int, w: seq<byte>)
    requires tablesize > 0 && Tracks(s1, Sum(w)) && Tracks(s2, SumOfSums(w))
    ensures 0 <= Bucket(tablesize, Weak(w)) < tablesize
    ensures Bucket(tablesize, Weak(w))
         == if tablesize == TRADITIONAL_TABLESIZE then (s1 + s2) % TWO16 else Weak(w) % tablesize
  {
    hide Tracks, Sum, SumOfSums;
    TracksLowBits(s1, Sum(w));
    TracksLowBits(s2, SumOfSums(w));
    Halves(s1 % TWO16, s2 % TWO16);
    LowSum(s1, s2);
  }

  lemma Halves(a: int, b: int)
    requires 0 <= a < TWO16 && 0 <= b
    ensures (a + b * TWO16) % TWO16 == a && (a + b * TWO16) / TWO16 == b
  {
  }

  lemma LowSum(x: int, y: int)
    ensures (x + y) % TWO16 == (x % TWO16 + y % TWO16) % TWO16
  {
  }
}
