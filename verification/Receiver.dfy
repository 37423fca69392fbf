/** receiver.c: applying the tokens, to a fresh file or to the basis file itself. */
module Receiver {
  import opened Bytes
  import opened Delta
  import opened Match
  import opened Emission
  import opened Coverage
  import opened HashSearch

  /** The block layout as the receiver knows it from the sum header. */
  datatype SumHead = SumHead(count: nat, blength: nat, remainder: nat)
  {
    function Len(i: nat): nat {
      if i == count - 1 && remainder != 0 then remainder else blength
    }
  }

  ghost predicate Agrees(head: SumHead, job: Job) {
    && head.count == |job.sums|
    && forall i: nat :: i < head.count ==> job.sums[i].offset == i * head.blength && job.sums[i].len == head.Len(i)
  }

  datatype Received = File(data: seq<byte>) | InvalidBlockIndex

  /** Write bytes at a position of a file, extending it at the end. */
  function Overwrite(file: seq<byte>, pos: nat, data: seq<byte>): seq<byte>
    requires pos <= |file|
  {
    file[..pos] + data + if pos + |data| < |file| then file[pos + |data|..] else []
  }

  /** While the basis is being overwritten: the output so far, the untouched rest, and the blocks kept in place. */
  ghost predicate PartlyUpdated(job: Job, basis: seq<byte>, ts: seq<Token>, file: seq<byte>, pos: nat) {
    && pos == job.OutLen(ts) <= |file| && |basis| <= |file|
    && file[..pos] == job.Replay(basis, ts)
    && (forall p :: pos <= p < |basis| ==> file[p] == basis[p])
    && forall i: nat :: i in job.SameOffset(ts) ==>
         i < |job.sums| && job.sums[i].offset + job.sums[i].len <= pos && job.Block(file, i) == job.Block(basis, i)
  }

  /** The block a safe token names still reads as it did in the basis. */
  lemma StillReadable(job: Job, basis: seq<byte>, ts: seq<Token>, file: seq<byte>, pos: nat, i: nat)
    requires job.Inside(basis) && PartlyUpdated(job, basis, ts, file, pos)
    requires i < |job.sums| && (job.sums[i].offset >= pos || i in job.SameOffset(ts))
    ensures job.Block(file, i) == job.Block(basis, i)
  {
  }

  lemma WriteReads(file: seq<byte>, pos: nat, data: seq<byte>)
    requires pos <= |file|
    ensures var file', end := Overwrite(file, pos, data), pos + |data|;
      && |file'| == (if end < |file| then |file| else end)
      && file'[..end] == file[..pos] + data && file'[pos..end] == data
      && (forall p :: end <= p < |file| ==> file'[p] == file[p])
      && (forall lo, hi :: 0 <= lo <= hi <= pos ==> file'[lo..hi] == file[lo..hi])
  {
  }

  lemma AfterWrite(job: Job, basis: seq<byte>, ts: seq<Token>, t: Token, file: seq<byte>, pos: nat)
    requires job.Inside(basis) && PartlyUpdated(job, basis, ts, file, pos)
    requires t.Copy? ==> t.i < |job.sums|
    ensures PartlyUpdated(job, basis, ts + [t], Overwrite(file, pos, job.Piece(basis, t)), pos + job.TokenLen(t))
  {
    hide Job.Replay, Job.OutLen, Job.SameOffset, Overwrite;
    var data := job.Piece(basis, t);
    var file' := Overwrite(file, pos, data);
    job.OneMore(basis, ts, t);
    assert |data| == job.TokenLen(t);
    WriteReads(file, pos, data);
    forall i: nat | i in job.SameOffset(ts + [t])
      ensures i < |job.sums| && job.sums[i].offset + job.sums[i].len <= pos + |data|
      ensures job.Block(file', i) == job.Block(basis, i)
    {
      if i in job.SameOffset(ts) {
        var lo, hi := job.sums[i].offset, job.sums[i].offset + job.sums[i].len;
        assert file'[lo..hi] == file[lo..hi];
      }
    }
  }

  /** A block already in its place is skipped over; that is the same as writing it. */
  lemma SkipIsWrite(job: Job, basis: seq<byte>, ts: seq<Token>, file: seq<byte>, pos: nat, i: nat)
    requires job.Inside(basis) && PartlyUpdated(job, basis, ts, file, pos)
    requires i < |job.sums| && job.sums[i].offset == pos
    ensures Overwrite(file, pos, job.Block(basis, i)) == file
  {
    hide Job.Replay, Job.SameOffset, Job.OutLen;
    StillReadable(job, basis, ts, file, pos, i);
    var hi := pos + job.sums[i].len;
    assert file == file[..pos] + file[pos..hi] + file[hi..];
  }

  /** The same for a fresh output file, which holds just the output so far. */
  ghost predicate Receiving(inPlace: bool, job: Job, basis: seq<byte>, ts: seq<Token>, file: seq<byte>, pos: nat) {
    if inPlace then PartlyUpdated(job, basis, ts, file, pos) else file == job.Replay(basis, ts) && pos == |file|
  }

  /** One safe token: the block reads as in the basis, and writing it, or skipping it, extends the output. */
  lemma ReceiveStep(inPlace: bool, job: Job, basis: seq<byte>, ts: seq<Token>, t: Token, file: seq<byte>, pos: nat)
    requires job.Inside(basis) && Receiving(inPlace, job, basis, ts, file, pos)
    requires t.Copy? ==> t.i < |job.sums|
    requires inPlace && t.Copy? ==> job.sums[t.i].offset >= job.OutLen(ts) || t.i in job.SameOffset(ts)
    ensures pos <= |file|
    ensures Receiving(inPlace, job, basis, ts + [t], Overwrite(file, pos, job.Piece(basis, t)), pos + job.TokenLen(t))
    ensures t.Copy? ==> job.Block(if inPlace then file else basis, t.i) == job.Block(basis, t.i)
    ensures inPlace && t.Copy? && job.sums[t.i].offset == pos ==> Overwrite(file, pos, job.Piece(basis, t)) == file
  {
    hide Job.Replay, Job.SameOffset, Job.OutLen;
    job.OneMore(basis, ts, t);
    if inPlace {
      AfterWrite(job, basis, ts, t, file, pos);
      if t.Copy? {
        StillReadable(job, basis, ts, file, pos, t.i);
        if job.sums[t.i].offset == pos {
          SkipIsWrite(job, basis, ts, file, pos, t.i);
        }
      }
    }
  }

  /** receiver.c:381-504.  In place, the blocks are read from the very file that is being written. */
  method ReceiveData(head: SumHead, basis: seq<byte>, ts: seq<Token>, inPlace: bool, ghost job: Job)
    returns (r: Received, ghost written: nat)
    requires Agrees(head, job) && job.Inside(basis)
    requires ts != [] && ts[|ts| - 1] == End && End !in ts[..|ts| - 1]
    ensures r == InvalidBlockIndex <==> exists t :: t in ts && t.Copy? && t.i >= head.count
    ensures r.File? && (inPlace ==> job.InPlaceSafe(ts[..|ts| - 1])) ==> r.data == job.Replay(basis, ts[..|ts| - 1])
    ensures r.File? ==> written == Writes(job, inPlace, ts[..|ts| - 1])
  {
    hide Writes, Job.Replay, Job.OutLen, Job.SameOffset, Job.InPlaceSafe, PartlyUpdated, Receiving, Overwrite, Agrees;
    ghost var body := ts[..|ts| - 1];
    ghost var sound := inPlace ==> job.InPlaceSafe(body);
    var file, offset, n := if inPlace then basis else [], 0, 0;
    written := 0;
    StartsAs(inPlace, job, basis);
    NoTokens(job, inPlace);
    assert body[..0] == [];
    BlockCount(head, job);
    while ts[n] != End
      invariant 0 <= n <= |body| && 0 <= offset <= |file|
      invariant inPlace ==> |basis| <= |file|
      invariant offset == job.OutLen(body[..n]) && written == Writes(job, inPlace, body[..n])
      invariant sound ==> Receiving(inPlace, job, basis, body[..n], file, offset)
      invariant forall t :: t in ts[..n] && t.Copy? ==> t.i < head.count
      decreases |ts| - n
    {
      assert body[..n + 1] == body[..n] + [body[n]] && ts[n] == body[n];
      if ts[n].Copy? && ts[n].i >= head.count {
        return InvalidBlockIndex, written;
      }
      if sound {
        SafePrefix(inPlace, job, body, n);
        ReceiveStep(inPlace, job, basis, body[..n], body[n], file, offset);
      }
      MoreWrites(job, inPlace, body, n);
      ghost var wrote;
      file, offset, wrote := Apply(head, basis, file, offset, ts[n], inPlace, job);
      written := written + wrote;
      n := n + 1;
    }
    assert body[..n] == body && ts == body + [End];
    if sound {
      OutputSoFar(inPlace, job, basis, body, file, offset);
    }
    r := File(file[..offset]);
  }

  /** How many bytes the tokens cause to be written: in place, a block that is copied onto itself is passed over. */
  function Writes(job: Job, inPlace: bool, ts: seq<Token>): nat {
    if ts == [] then 0 else
      var init, last := ts[..|ts| - 1], ts[|ts| - 1];
      Writes(job, inPlace, init) + if inPlace && Stays(job, init, last) then 0 else job.TokenLen(last)
  }

  predicate Stays(job: Job, ts: seq<Token>, t: Token) {
    t.Copy? && t.i < |job.sums| && job.sums[t.i].offset == job.OutLen(ts)
  }

  lemma NoTokens(job: Job, inPlace: bool)
    ensures job.OutLen([]) == 0 && Writes(job, inPlace, []) == 0
  {
  }

  /** A fresh file is written whole. */
  lemma {:induction false} FreshWrites(job: Job, ts: seq<Token>)
    ensures Writes(job, false, ts) == job.OutLen(ts)
  {
    if ts != [] {
      FreshWrites(job, ts[..|ts| - 1]);
    }
  }

  lemma MoreWrites(job: Job, inPlace: bool, ts: seq<Token>, n: nat)
    requires n < |ts|
    ensures Writes(job, inPlace, ts[..n + 1])
         == Writes(job, inPlace, ts[..n]) + if inPlace && Stays(job, ts[..n], ts[n]) then 0 else job.TokenLen(ts[n])
    ensures job.OutLen(ts[..n + 1]) == job.OutLen(ts[..n]) + job.TokenLen(ts[n])
  {
    assert ts[..n + 1] == ts[..n] + [ts[n]] && ts[..n + 1][..n] == ts[..n];
  }

  /** One token: a literal is written; a block is read and written, or skipped where it is in its place. */
  method Apply(head: SumHead, basis: seq<byte>, file: seq<byte>, offset: nat, t: Token, inPlace: bool, ghost job: Job)
    returns (file': seq<byte>, offset': nat, ghost wrote: nat)
    requires Agrees(head, job) && job.Inside(basis) && t != End && (t.Copy? ==> t.i < head.count)
    requires offset <= |file| && (inPlace ==> |basis| <= |file|)
    ensures offset' == offset + job.TokenLen(t) <= |file'| && |file| <= |file'|
    ensures t.Literal? ==> file' == Overwrite(file, offset, t.data)
    ensures t.Copy? ==> t.i < |job.sums| && file' == if inPlace && job.sums[t.i].offset == offset then file
      else Overwrite(file, offset, job.Block(if inPlace then file else basis, t.i))
    ensures wrote == if inPlace && t.Copy? && job.sums[t.i].offset == offset then 0 else job.TokenLen(t)
  {
    hide Overwrite, Agrees, Job.Inside;
    file', offset', wrote := file, offset, 0;
    match t {
      case Literal(data) =>
        Longer(file, offset, data);
        file' := Overwrite(file, offset, data);
        wrote := |data|;
        offset' := offset + |data|;
      case Copy(i) =>
        var offset2, len := i * head.blength, head.Len(i);
        BlockCount(head, job);
        BlockLayout(head, job, basis, i);
        var block := if inPlace then file[offset2..offset2 + len] else basis[offset2..offset2 + len];
        if !(inPlace && offset == offset2) {
          Longer(file, offset, block);
          file' := Overwrite(file, offset, block);
          wrote := |block|;
        } else {
          InsideFile(head, job, basis, i);
        }
        offset' := offset + len;
    }
  }

  lemma InsideFile(head: SumHead, job: Job, basis: seq<byte>, i: nat)
    requires Agrees(head, job) && job.Inside(basis) && i < head.count
    ensures job.sums[i].offset + job.sums[i].len <= |basis|
  {
  }

  lemma Longer(file: seq<byte>, pos: nat, data: seq<byte>)
    requires pos <= |file|
    ensures |Overwrite(file, pos, data)| == if pos + |data| < |file| then |file| else pos + |data|
  {
  }

  lemma BlockCount(head: SumHead, job: Job)
    requires Agrees(head, job)
    ensures head.count == |job.sums|
  {
  }

  lemma BlockLayout(head: SumHead, job: Job, basis: seq<byte>, i: nat)
    requires Agrees(head, job) && job.Inside(basis) && i < head.count
    ensures job.sums[i].offset == i * head.blength && job.sums[i].len == head.Len(i)
    ensures i * head.blength + head.Len(i) <= |basis|
  {
  }

  lemma StartsAs(inPlace: bool, job: Job, basis: seq<byte>)
    ensures Receiving(inPlace, job, basis, [], if inPlace then basis else [], 0)
  {
  }

  lemma OutputSoFar(inPlace: bool, job: Job, basis: seq<byte>, ts: seq<Token>, file: seq<byte>, pos: nat)
    requires Receiving(inPlace, job, basis, ts, file, pos)
    ensures pos <= |file| && file[..pos] == job.Replay(basis, ts)
  {
  }

  lemma {:induction false} SafePrefix(inPlace: bool, job: Job, ts: seq<Token>, n: nat)
    requires (inPlace ==> job.InPlaceSafe(ts)) && n < |ts|
    ensures inPlace && ts[n].Copy? ==>
      && ts[n].i < |job.sums|
      && (job.sums[ts[n].i].offset >= job.OutLen(ts[..n]) || ts[n].i in job.SameOffset(ts[..n]))
  {
    var init := ts[..|ts| - 1];
    if inPlace && n < |init| {
      SafePrefix(inPlace, job, init, n);
      assert init[..n] == ts[..n];
    }
  }

  /** A whole transfer.  In place or not, it leaves what the tokens mean on an untouched basis, as many bytes as the
      source has.  Into a fresh file that is the source; in place it is the source unless the basis has two different
      full blocks whose weak sum is 0. */
  method Transfer(job: Job, head: SumHead, basis: seq<byte>)
    returns (r: Received, ghost ts: seq<Token>, ghost log: seq<Look>, ghost written: nat)
    requires Agrees(head, job) && job.Describes(basis) && job.CollisionFree(basis) && |job.sums| < 0x8000_0000
    ensures r == File(job.Replay(basis, ts)) && job.OutLen(ts) == |job.src| == |r.data|
    ensures job.LiteralsWithin(LiteralBound(job), ts) && (job.inPlace ==> job.InPlaceSafe(ts))
    ensures Logged(job, ts, log) && (r.data == job.src <==> AllRight(job, log)) && Thorough(job, ts, log)
    ensures !job.inPlace || ZeroSumsAgree(job) ==> r.data == job.src
    ensures written == Writes(job, job.inPlace, ts)
  {
    hide Writes, CopiesAt, AllRight, Logged, Thorough,
         Job.Describes, Job.CollisionFree, ZeroSumsAgree, Job.InPlaceSafe, Job.SameOffset;
    var search := new Search(job);
    ghost var exact;
    exact, log := search.MatchSums(basis);
    PositiveBlocks(job, basis);
    ts := search.tokens[..|search.tokens| - 1];
    assert search.tokens == ts + [End];
    MoreCopies(job, ts, End);
    SameCopies(job, search.tokens, ts, log);
    WithoutEnd(job, ts, log);
    job.ReplayLength(basis, ts);
    r, written := ReceiveData(head, basis, search.tokens, job.inPlace, job);
    assert job.src[..|job.src|] == job.src;
  }
}
