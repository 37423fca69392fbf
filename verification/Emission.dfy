/** What the tokens emitted so far amount to, as one state of the search. */
module Emission {
  import opened Bytes
  import opened Registers
  import opened Rolling
  import opened Delta
  import opened Match

  /** No literal run is longer than this, so match.c:131 never truncates. */
  function LiteralBound(job: Job): nat {
    2 * job.blength + 2 * CHUNK_SIZE
  }

  /** The tokens cover the source up to `lastMatch`; they are safe to apply in place; marked blocks were
      copied to their own position; and they rebuild the source exactly if and only if `exact`. */
  ghost predicate Progress(job: Job, basis: seq<byte>, ts: seq<Token>, lastMatch: nat, flags: seq<bool>, exact: bool) {
    && |flags| == |job.sums|
    && (forall t :: t in ts && t.Copy? ==> t.i < |job.sums|)
    && job.OutLen(ts) == lastMatch <= |job.src|
    && End !in ts && job.LiteralsWithin(LiteralBound(job), ts)
    && (job.inPlace ==> job.InPlaceSafe(ts))
    && (forall i :: 0 <= i < |flags| && flags[i] ==> i in job.SameOffset(ts))
    && (exact <==> job.Replay(basis, ts) == job.src[..lastMatch])
  }

  /** What match.c:129-163 sends: the pending literal, if any, and then the token. */
  function Emitted(job: Job, ts: seq<Token>, lastMatch: nat, offset: nat, token: seq<Token>): seq<Token>
    requires lastMatch <= offset <= |job.src|
  {
    ts + (if lastMatch < offset then [Literal(job.src[lastMatch..offset])] else []) + token
  }

  lemma EmitLiteral(job: Job, basis: seq<byte>, ts: seq<Token>, lastMatch: nat, flags: seq<bool>, exact: bool,
                    offset: nat)
    requires job.Inside(basis) && Progress(job, basis, ts, lastMatch, flags, exact)
    requires lastMatch <= offset <= |job.src| && offset - lastMatch <= LiteralBound(job)
    ensures Progress(job, basis, Emitted(job, ts, lastMatch, offset, []), offset, flags, exact)
  {
    hide Job.Replay, Job.OutLen, Job.InPlaceSafe, Job.SameOffset, LiteralBound;
    var ts' := Emitted(job, ts, lastMatch, offset, []);
    if lastMatch == offset {
      assert ts' == ts;
    } else {
      var data := job.src[lastMatch..offset];
      assert ts' == ts + [Literal(data)];
      job.OneMore(basis, ts, Literal(data));
      job.ReplayLength(basis, ts);
      SamePrefix(job.src, job.Replay(basis, ts), data);
    }
  }

  lemma NothingYet(job: Job, basis: seq<byte>, flags: seq<bool>)
    requires |flags| == |job.sums| && forall i :: 0 <= i < |flags| ==> !flags[i]
    ensures Progress(job, basis, [], 0, flags, true)
  {
  }

  lemma SamePrefix(src: seq<byte>, a: seq<byte>, b: seq<byte>)
    requires |a| + |b| <= |src|
    ensures a + b == src[..|a| + |b|] <==> a == src[..|a|] && b == src[|a|..|a| + |b|]
  {
    assert src[..|a| + |b|] == src[..|a|] + src[|a|..|a| + |b|];
    if a + b == src[..|a| + |b|] {
      assert a == (a + b)[..|a|] && b == (a + b)[|a|..];
    }
  }

  /** Emitting a chosen block; `right` says whether it holds the source bytes of its place. */
  lemma EmitCopy(job: Job, basis: seq<byte>, ts: seq<Token>, flags: seq<bool>, exact: bool, offset: nat, c: Choice,
                 right: bool)
    requires job.Describes(basis) && Progress(job, basis, ts, c.offset, flags, exact)
    requires offset <= |job.src| && ChoiceFits(job, flags, offset, c)
    requires right <==> job.Block(basis, c.i) == job.Here(c.offset)
    ensures Progress(job, basis, ts + [Copy(c.i)], c.offset + job.sums[c.i].len,
                     if c.same then flags[c.i := true] else flags, exact && right)
  {
    hide Job.Replay, Job.OutLen, Job.InPlaceSafe, Job.SameOffset, Job.Hit, Weak;
    job.OneMore(basis, ts, Copy(c.i));
    job.ReplayLength(basis, ts);
    assert |job.Block(basis, c.i)| == job.sums[c.i].len;
    SamePrefix(job.src, job.Replay(basis, ts), job.Block(basis, c.i));
  }

  /** The blocks that the tokens copy, each with its place in the output. */
  function CopiesAt(job: Job, ts: seq<Token>): seq<(nat, nat)> {
    if ts == [] then [] else
      var init, last := ts[..|ts| - 1], ts[|ts| - 1];
      CopiesAt(job, init) + if last.Copy? then [(last.i, job.OutLen(init))] else []
  }

  /** The block after the last one chosen. */
  ghost function Want(job: Job, log: seq<Look>): nat {
    if log == [] || !Sees(job, log[|log| - 1]) then 0 else Pick(job, log[|log| - 1]).i + 1
  }

  /** The copies are the choices of the log, one for one, and each was hinted at by the one before. */
  ghost predicate Logged(job: Job, ts: seq<Token>, log: seq<Look>) {
    var copies := CopiesAt(job, ts);
    && |copies| == |log|
    && forall k :: 0 <= k < |log| ==>
         && Sees(job, log[k]) && copies[k] == (Pick(job, log[k]).i, Pick(job, log[k]).offset)
         && log[k].wantI == Want(job, log[..k])
  }

  /** No choice of the log was judged by the wrong window. */
  ghost predicate AllRight(job: Job, log: seq<Look>) {
    forall k :: 0 <= k < |log| ==> Sees(job, log[k]) && !Wrong(job, log[k])
  }

  lemma MoreCopies(job: Job, ts: seq<Token>, t: Token)
    ensures CopiesAt(job, ts + [t]) == CopiesAt(job, ts) + if t.Copy? then [(t.i, job.OutLen(ts))] else []
  {
    assert (ts + [t])[..|ts|] == ts;
  }

  /** The log grows with the choice that is emitted. */
  lemma LogLook(job: Job, ts: seq<Token>, log: seq<Look>, ts': seq<Token>, l: Look)
    requires Logged(job, ts, log) && Sees(job, l) && l.wantI == Want(job, log)
    requires CopiesAt(job, ts') == CopiesAt(job, ts) + [(Pick(job, l).i, Pick(job, l).offset)]
    ensures Logged(job, ts', log + [l]) && Want(job, log + [l]) == Pick(job, l).i + 1
    ensures AllRight(job, log + [l]) <==> AllRight(job, log) && !Wrong(job, l)
  {
    hide Sees, Wrong, Pick, CopiesAt;
    var more := log + [l];
    assert more[|log|] == l && more[..|log|] == log;
    assert forall k :: 0 <= k < |log| ==> more[k] == log[k] && more[..k] == log[..k];
  }

  /** What is sent up to `offset` copies nothing. */
  lemma LiteralCopies(job: Job, ts: seq<Token>, lastMatch: nat, offset: nat)
    requires lastMatch <= offset <= |job.src| && job.OutLen(ts) == lastMatch
    ensures var ts' := Emitted(job, ts, lastMatch, offset, []);
      CopiesAt(job, ts') == CopiesAt(job, ts) && job.OutLen(ts') == offset
  {
    hide CopiesAt;
    var ts' := Emitted(job, ts, lastMatch, offset, []);
    if lastMatch < offset {
      var t := Literal(job.src[lastMatch..offset]);
      assert ts' == ts + [t];
      MoreCopies(job, ts, t);
      job.OneMore([], ts, t);
    } else {
      assert ts' == ts;
    }
  }

  /** The whole output of a search. */
  ghost predicate Finished(job: Job, basis: seq<byte>, ts: seq<Token>, flags: seq<bool>, exact: bool) {
    && ts != [] && ts[|ts| - 1] == End
    && Progress(job, basis, ts[..|ts| - 1], |job.src|, flags, exact)
  }

  /** Where the search stands: the hint, and the first block boundary at or after the offset (in place only). */
  datatype Hints = Hints(wantI: nat, aligned: nat, alignedI: nat)

  ghost predicate HintsOk(job: Job, offset: nat, h: Hints) {
    job.inPlace ==> h.aligned == h.alignedI * job.blength && h.aligned < offset + job.blength
  }

  ghost predicate SomeHit(job: Job, flags: seq<bool>, offset: nat)
    requires |flags| == |job.sums| && offset <= |job.src|
  {
    exists j :: 0 <= j < |flags| && Live(job, flags, j, offset) && job.Hit(j, offset)
  }

  // ---------- rolling the registers (match.c:350-366) ----------

  datatype Rolled = Rolled(k: nat, s1: int, s2: int)

  ghost predicate AtWindow(job: Job, offset: nat, r: Rolled) {
    && offset <= |job.src| && r.k == job.WindowLen(offset)
    && Tracks(r.s1, Sum(job.Here(offset))) && Tracks(r.s2, SumOfSums(job.Here(offset)))
  }

  function Fresh(job: Job, offset: nat, sum: int): Rolled
    requires offset <= |job.src|
  {
    Rolled(job.WindowLen(offset), sum % TWO16, sum / TWO16)
  }

  lemma FreshTracks(job: Job, offset: nat)
    requires offset <= |job.src|
    ensures AtWindow(job, offset, Fresh(job, offset, Weak(job.Here(offset))))
  {
    hide Sum, SumOfSums, Tracks;
    var w := job.Here(offset);
    TracksLowBits(Weak(w) % TWO16, Sum(w));
    TracksLowBits(Weak(w) / TWO16, SumOfSums(w));
  }

  function Roll(job: Job, offset: nat, r: Rolled): Rolled
    requires offset < |job.src| && 0 < r.k && offset + r.k <= |job.src|
  {
    var first := Value(job.src[offset]);
    var s1, s2 := Wrap32(r.s1 - first), Wrap32(r.s2 - r.k * first);
    if offset + r.k < |job.src| then
      var s1' := Wrap32(s1 + Value(job.src[offset + r.k]));
      Rolled(r.k, s1', Wrap32(s2 + s1'))
    else
      Rolled(r.k - 1, s1, s2)
  }

  lemma RollWindow(job: Job, offset: nat)
    requires 0 < job.blength && offset < |job.src|
    ensures var w, k := job.Here(offset), job.WindowLen(offset);
      && |w| == k > 0 && w[0] == job.src[offset]
      && job.Here(offset + 1) == w[1..] + (if offset + k < |job.src| then [job.src[offset + k]] else [])
      && job.WindowLen(offset + 1) == (if offset + k < |job.src| then k else k - 1)
  {
  }

  lemma RollTracks(job: Job, offset: nat, r: Rolled)
    requires 0 < job.blength && offset < |job.src| && AtWindow(job, offset, r)
    ensures AtWindow(job, offset + 1, Roll(job, offset, r))
  {
    hide Tracks, Sum, SumOfSums, Wrap32, Value, Times, Job.Here, Job.WindowLen;
    var w, first := job.Here(offset), Value(job.src[offset]);
    RollWindow(job, offset);
    TimesIsProduct(r.k, first);
    if offset + r.k < |job.src| {
      RollRegisters(w, job.src[offset + r.k], r.s1, r.s2, r.k * first);
    } else {
      RollRegisters(w, 0, r.s1, r.s2, r.k * first);
      assert w[1..] + [] == w[1..];
    }
  }
}
