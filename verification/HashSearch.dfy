/** match.c: the hash table over the weak sums, and the search loop. */
module HashSearch {
  import opened Bytes
  import opened Registers
  import opened Rolling
  import opened Delta
  import opened Match
  import opened Emission
  import opened WeakTable
  import opened Coverage

  class Search {
    const job: Job
    var tablesize: nat
    var hashTable: array<int>
    var chain: array<int>
    var sameOffset: array<bool>
    var lastMatch: nat
    var tokens: seq<Token>

    constructor (job: Job)
      ensures this.job == job && Shaped() && fresh(hashTable) && fresh(chain) && fresh(sameOffset)
      ensures tokens == [] && lastMatch == 0 && tablesize == 0
      ensures forall i :: 0 <= i < sameOffset.Length ==> !sameOffset[i]
    {
      this.job := job;
      tablesize := 0;
      hashTable := new int[0];
      chain := new int[|job.sums|];
      sameOffset := new bool[|job.sums|](_ => false);
      lastMatch := 0;
      tokens := [];
    }

    ghost predicate Shaped()
      reads this
    {
      && chain.Length == sameOffset.Length == |job.sums|
      && chain != hashTable
    }

    ghost predicate Ready(offset: nat)
      reads this, hashTable, chain, sameOffset
    {
      && Shaped() && tablesize > 0
      && Linked(job, tablesize, hashTable[..], chain[..], sameOffset[..], offset)
    }

    /** match.c:79-112. */
    method BuildHashTable()
      requires Shaped() && |job.sums| < 0x8000_0000
      modifies this`tablesize, this`hashTable, hashTable, chain
      ensures Ready(0) && (hashTable == old(hashTable) || fresh(hashTable))
      ensures chain == old(chain) && sameOffset == old(sameOffset)
    {
      tablesize := |job.sums| / 8 * 10 + 11;
      if tablesize < TRADITIONAL_TABLESIZE {
        tablesize := TRADITIONAL_TABLESIZE;
      }
      if tablesize > hashTable.Length || tablesize < hashTable.Length - 16 * 1024 {
        hashTable := new int[tablesize];
      }
      Fill();
    }

    method Fill()
      requires Shaped() && 0 < tablesize <= hashTable.Length
      modifies hashTable, chain
      ensures Ready(0)
    {
      forall t | 0 <= t < tablesize {
        hashTable[t] := -1;
      }
      ghost var flags := sameOffset[..];
      var i := 0;
      while i < |job.sums|
        invariant 0 <= i <= |job.sums|
        invariant Built(job, tablesize, hashTable[..], chain[..], flags, i)
      {
        var t := Bucket(tablesize, job.sums[i].sum1);
        BuildStep(job, tablesize, hashTable[..], chain[..], flags, i);
        chain[i] := hashTable[t];
        hashTable[t] := i;
        i := i + 1;
      }
    }

    /** match.c:218-228: the weak sum of the window, and its bucket, from the registers. */
    method Entry(offset: nat, s1: int, s2: int) returns (sum: int, entry: int)
      requires Ready(offset) && offset < |job.src|
      requires Tracks(s1, Sum(job.Here(offset))) && Tracks(s2, SumOfSums(job.Here(offset)))
      ensures sum == Weak(job.Here(offset)) && entry == Bucket(tablesize, sum) && 0 <= entry < tablesize <= hashTable.Length
    {
      hide Linked, Weak, Wrap32, Tracks, Bucket, Sum, SumOfSums;
      LinkedShape(job, tablesize, hashTable[..], chain[..], sameOffset[..], offset);
      sum := s1 % TWO16 + Wrap32(s2 * TWO16);
      WeakOfRegisters(s1, s2, job.Here(offset));
      entry := if tablesize == TRADITIONAL_TABLESIZE then (s1 + s2) % TWO16 else sum % tablesize;
      BucketOfRegisters(tablesize, s1, s2, job.Here(offset));
    }

    /** match.c:229-276: walk the chain of the window's bucket.  An in-place search unlinks the
        entries it has bypassed for good. */
    method FindBlock(offset: nat, s1: int, s2: int) returns (i: int)
      requires Ready(offset) && offset < |job.src|
      requires Tracks(s1, Sum(job.Here(offset))) && Tracks(s2, SumOfSums(job.Here(offset)))
      modifies hashTable, chain
      ensures Ready(offset)
      ensures -1 <= i < |job.sums|
      ensures i >= 0 ==> job.Hit(i, offset) && Live(job, sameOffset[..], i, offset)
      ensures i >= 0 ==> forall j :: i < j < |job.sums| && Live(job, sameOffset[..], j, offset) ==> !job.Hit(j, offset)
      ensures i < 0 ==>
        || CountWeak(job.sums, Weak(job.Here(offset)), 0) > MAX_CHAIN_LEN
        || forall j :: 0 <= j < |job.sums| && Live(job, sameOffset[..], j, offset) ==> !job.Hit(j, offset)
    {
      hide Walk, Linked, Link, Weak, Tracks, Bucket, Sum, SumOfSums;
      var sum, entry := Entry(offset, s1, s2);
      i := hashTable[entry];
      var prev, chainLen := -1, 0;
      ghost var flags := sameOffset[..];
      WalkStart(job, tablesize, hashTable[..], chain[..], flags, offset, entry);
      WalkBounds(job, tablesize, hashTable[..], chain[..], flags, offset, entry, prev, i);
      while i >= 0
        invariant -1 <= i < |job.sums|
        invariant Walk(job, tablesize, hashTable[..], chain[..], flags, offset, entry, prev, i)
        invariant chainLen <= CountWeak(job.sums, sum, i + 1)
        decreases i
      {
        var next := chain[i];
        WalkBounds(job, tablesize, hashTable[..], chain[..], flags, offset, entry, prev, i);
        if job.inPlace && job.sums[i].offset < offset && !sameOffset[i] {
          Unlink(job, tablesize, hashTable[..], chain[..], flags, offset, entry, prev, i);
          if prev < 0 {
            hashTable[entry] := next;
          } else {
            chain[prev] := next;
          }
        } else {
          if sum == job.sums[i].sum1 {
            chainLen := chainLen + 1;
            if chainLen > MAX_CHAIN_LEN {
              CountAll(job.sums, sum, i);
              return -1;
            }
            if job.WindowLen(offset) == job.sums[i].len && job.strong(job.Here(offset)) == job.sums[i].sum2 {
              WalkPassed(job, tablesize, hashTable[..], chain[..], flags, offset, entry, prev, i);
              return;
            }
          }
          WalkOn(job, tablesize, hashTable[..], chain[..], flags, offset, entry, prev, i);
          prev := i;
        }
        CountGrows(job.sums, sum, next + 1, i);
        i := next;
      }
      WalkBounds(job, tablesize, hashTable[..], chain[..], flags, offset, entry, prev, i);
      forall j | 0 <= j < |job.sums| && job.Hit(j, offset)
        ensures !Live(job, sameOffset[..], j, offset)
      {
        assert Bucket(tablesize, job.sums[j].sum1) == entry;
      }
    }

    /** match.c:129-163: send the pending literal and then a block reference, the end, or nothing. */
    method Matched(offset: nat, i: int)
      requires lastMatch <= offset <= |job.src| && -2 <= i < |job.sums|
      modifies this`tokens, this`lastMatch
      ensures tokens == Emitted(job, old(tokens), old(lastMatch), offset, TokenFor(i))
      ensures lastMatch == offset + if i >= 0 then job.sums[i].len else 0
    {
      if lastMatch < offset {
        tokens := tokens + [Literal(job.src[lastMatch..offset])];
      }
      tokens := tokens + TokenFor(i);
      lastMatch := offset + if i >= 0 then job.sums[i].len else 0;
    }

    /** Send what is pending up to `offset`, and the end token if `last`. */
    method Flush(offset: nat, last: bool, ghost basis: seq<byte>, ghost exact: bool)
      requires Shaped() && job.Inside(basis) && Progress(job, basis, tokens, lastMatch, sameOffset[..], exact)
      requires lastMatch <= offset <= |job.src| && offset - lastMatch <= LiteralBound(job)
      modifies this`tokens, this`lastMatch
      ensures lastMatch == offset
      ensures !last ==> Progress(job, basis, tokens, lastMatch, sameOffset[..], exact)
      ensures last && offset == |job.src| ==> Finished(job, basis, tokens, sameOffset[..], exact)
      ensures CopiesAt(job, tokens) == old(CopiesAt(job, tokens))
      ensures tokens == Emitted(job, old(tokens), old(lastMatch), offset, if last then [End] else [])
    {
      hide Progress, LiteralBound, CopiesAt;
      ghost var ts, was := tokens, lastMatch;
      OutAt(job, basis, ts, was, sameOffset[..], exact);
      LiteralCopies(job, ts, was, offset);
      MoreCopies(job, Emitted(job, ts, was, offset, []), End);
      assert Emitted(job, ts, was, offset, [End]) == Emitted(job, ts, was, offset, []) + [End];
      EmitLiteral(job, basis, ts, was, sameOffset[..], exact, offset);
      Matched(offset, if last then -1 else -2);
      if last {
        assert tokens == Emitted(job, ts, was, offset, []) + [End];
        assert tokens[..|tokens| - 1] == Emitted(job, ts, was, offset, []);
      }
    }

    /** match.c:319-338: mark a block kept in place, and emit it. */
    method EmitChoice(c: Choice, ghost basis: seq<byte>, ghost offset: nat, ghost exact: bool)
      requires Ready(offset) && job.Describes(basis) && Progress(job, basis, tokens, lastMatch, sameOffset[..], exact)
      requires offset <= |job.src| && ChoiceFits(job, sameOffset[..], offset, c)
      requires lastMatch <= c.offset && c.offset - lastMatch <= LiteralBound(job)
      modifies this`tokens, this`lastMatch, sameOffset
      ensures Ready(c.offset) && lastMatch == c.offset + job.sums[c.i].len
      ensures Progress(job, basis, tokens, lastMatch, sameOffset[..],
                       exact && job.Block(basis, c.i) == job.Here(c.offset))
      ensures CopiesAt(job, tokens) == old(CopiesAt(job, tokens)) + [(c.i, c.offset)]
      ensures tokens == Emitted(job, old(tokens), old(lastMatch), c.offset, [Copy(c.i)])
      ensures sameOffset[..] == if c.same then old(sameOffset[..])[c.i := true] else old(sameOffset[..])
    {
      hide Progress, Link, Linked, Job.Describes, Job.Replay, Weak, CopiesAt;
      ghost var flags, ts, was := sameOffset[..], tokens, lastMatch;
      if c.same {
        sameOffset[c.i] := true;
      }
      assert sameOffset[..] == if c.same then flags[c.i := true] else flags;
      StillLinked(job, tablesize, hashTable[..], chain[..], flags, offset, sameOffset[..], c.offset);
      Matched(c.offset, c.i);
      PositiveBlocks(job, basis);
      EmitLiteral(job, basis, ts, was, flags, exact, c.offset);
      EmitCopy(job, basis, Emitted(job, ts, was, c.offset, []), flags, exact, offset, c,
               job.Block(basis, c.i) == job.Here(c.offset));
      assert Emitted(job, ts, was, c.offset, TokenFor(c.i)) == Emitted(job, ts, was, c.offset, []) + [Copy(c.i)];
      OutAt(job, basis, ts, was, flags, exact);
      LiteralCopies(job, ts, was, c.offset);
      MoreCopies(job, Emitted(job, ts, was, c.offset, []), Copy(c.i));
    }

    /** match.c:218-347: one look at the window at `offset`.  Below the chain cap, a block is emitted exactly
        when some usable block agrees with the window in length and in both sums. */
    method TryMatch(offset: nat, r: Rolled, h: Hints, ghost basis: seq<byte>, ghost exact: bool, ghost log: seq<Look>)
      returns (found: bool, offset': nat, r': Rolled, h': Hints, ghost exact': bool, ghost log': seq<Look>)
      requires Ready(offset) && job.Describes(basis) && job.CollisionFree(basis)
      requires Progress(job, basis, tokens, lastMatch, sameOffset[..], exact) && Logged(job, tokens, log)
      requires h.wantI == Want(job, log) && Looked(job, tokens, lastMatch, offset, sameOffset[..], log)
      requires offset < |job.src| && AtWindow(job, offset, r) && HintsOk(job, offset, h)
      requires lastMatch <= offset && offset - lastMatch + job.blength <= LiteralBound(job)
      modifies this`tokens, this`lastMatch, hashTable, chain, sameOffset
      ensures offset <= offset' < |job.src| && Ready(offset') && AtWindow(job, offset', r') && HintsOk(job, offset', h')
      ensures Progress(job, basis, tokens, lastMatch, sameOffset[..], exact')
      ensures !found ==> offset' == offset && tokens == old(tokens) && lastMatch == old(lastMatch)
      ensures found ==> lastMatch == offset' + 1
      ensures CountWeak(job.sums, Weak(job.Here(offset)), 0) <= MAX_CHAIN_LEN ==>
        (found <==> SomeHit(job, old(sameOffset[..]), offset))
      ensures h'.wantI == Want(job, log') && Looked(job, tokens, lastMatch, offset' + 1, sameOffset[..], log')
      ensures Logged(job, tokens, log') && (exact == AllRight(job, log) ==> exact' == AllRight(job, log'))
      ensures !job.inPlace || ZeroSumsAgree(job) ==> exact' == exact
    {
      hide Progress, Linked, Link, Tracks, Sum, SumOfSums, Weak, Job.Replay, Job.CollisionFree, Job.Describes,
           Job.Hit, HintsOk, Choose, Misread, ZeroSumsAgree, Bucket, CountWeak,
           CopiesAt, Logged, AllRight, Looked, Want, Emitted, Fresh;
      ghost var flags, ts, was := sameOffset[..], tokens, lastMatch;
      offset', r', h', exact', log' := offset, r, h, exact, log;
      var i := FindBlock(offset, r.s1, r.s2);
      found := i >= 0;
      if !found {
        LookMissed(job, ts, was, offset, flags, log);
        return;
      }
      assert SomeHit(job, flags, offset);
      PositiveBlocks(job, basis);
      var aligned, alignedI := Align(job, offset, h);
      var c := Choose(job, sameOffset[..], offset, i, h.wantI, aligned, alignedI);
      ChooseExact(job, basis, flags, offset, i, h.wantI, aligned, alignedI);
      ChoiceSound(job, basis, flags, offset, i, h.wantI, aligned, alignedI);
      exact' := exact && job.Block(basis, c.i) == job.Here(c.offset);
      ghost var look := Look(flags, offset, i, h.wantI, aligned, alignedI);
      EmitChoice(c, basis, offset, exact);
      LogLook(job, ts, log, tokens, look);
      LookFound(job, ts, was, flags, log, look, sameOffset[..]);
      log' := log + [look];
      offset' := c.offset + job.sums[c.i].len - 1;
      BlockLen(job, basis, c.i);
      var sum := GetChecksum1(job.Here(offset'));
      r' := Fresh(job, offset', sum);
      FreshTracks(job, offset');
      h' := Hints(c.i + 1, aligned, alignedI);
      HintsAdvance(job, basis, offset, h', offset');
      StillLinked(job, tablesize, hashTable[..], chain[..], sameOffset[..], c.offset, sameOffset[..], offset');
    }

    /** match.c:166-380. */
    method HashSearch(ghost basis: seq<byte>) returns (ghost exact: bool, ghost log: seq<Look>)
      requires Ready(0) && job.Describes(basis) && job.CollisionFree(basis)
      requires job.src != [] && job.sums != []
      requires tokens == [] && lastMatch == 0 && forall i :: 0 <= i < sameOffset.Length ==> !sameOffset[i]
      modifies this`tokens, this`lastMatch, hashTable, chain, sameOffset
      ensures Finished(job, basis, tokens, sameOffset[..], exact)
      ensures Logged(job, tokens, log) && (exact <==> AllRight(job, log)) && Thorough(job, tokens, log)
      ensures !job.inPlace || ZeroSumsAgree(job) ==> exact
    {
      hide Progress, Finished, AtWindow, HintsOk, Linked, Link, Tracks, Sum, SumOfSums, Weak, Roll, Fresh, SomeHit,
           Job.CollisionFree, Job.Describes, ZeroSumsAgree, CountWeak, CopiesAt, AllRight, Logged, Looked, Thorough, Emitted;
      var offset, h := 0, Hints(0, 0, 0);
      var sum := GetChecksum1(job.Here(0));
      var r := Fresh(job, 0, sum);
      FreshTracks(job, 0);
      NothingYet(job, basis, sameOffset[..]);
      PositiveBlocks(job, basis);
      HintsAdvance(job, basis, 0, h, 0);
      BlockLen(job, basis, |job.sums| - 1);
      var end: int := |job.src| + 1 - job.sums[|job.sums| - 1].len;
      exact, log := true, [];
      NothingLogged(job);
      StartLooking(job, sameOffset[..]);
      var more := true;
      while more
        invariant lastMatch <= offset <= |job.src| && (more ==> offset < |job.src|)
        invariant if more then offset == 0 || offset < end else end <= offset
        invariant Pending(job, end, offset, lastMatch)
        invariant Ready(offset) && AtWindow(job, offset, r) && HintsOk(job, offset, h)
        invariant Progress(job, basis, tokens, lastMatch, sameOffset[..], exact)
        invariant Logged(job, tokens, log) && (exact <==> AllRight(job, log)) && h.wantI == Want(job, log)
        invariant Looked(job, tokens, lastMatch, offset, sameOffset[..], log) && (more || offset > 0)
        invariant !job.inPlace || ZeroSumsAgree(job) ==> exact
        decreases |job.src| - offset, more
      {
        var found;
        found, offset, r, h, exact, log := TryMatch(offset, r, h, basis, exact, log);
        ghost var ts, was := tokens, lastMatch;
        HintsAdvance(job, basis, offset, h, offset + 1);
        AtWindowBounds(job, offset, r);
        var backup := if offset < lastMatch then 0 else offset - lastMatch;
        RollTracks(job, offset, r);
        r := Roll(job, offset, r);
        if backup >= job.blength + CHUNK_SIZE && end - offset > CHUNK_SIZE {
          Flush(offset - job.blength, false, basis, exact);
          SameCopies(job, ts, tokens, log);
          LookFlushed(job, ts, was, offset + 1, sameOffset[..], log, offset - job.blength);
        }
        StillLinked(job, tablesize, hashTable[..], chain[..], sameOffset[..], offset, sameOffset[..], offset + 1);
        offset := offset + 1;
        more := offset < end;
      }
      ghost var ts := tokens;
      AllLooked(job, ts, lastMatch, offset, sameOffset[..], log);
      Flush(|job.src|, true, basis, exact);
      SameCopies(job, ts, tokens, log);
    }

    /** match.c:397-445 (no append mode, no RDMA): the whole output for one file. */
    method MatchSums(ghost basis: seq<byte>) returns (ghost exact: bool, ghost log: seq<Look>)
      requires Shaped() && |job.sums| < 0x8000_0000
      requires job.sums != [] ==> job.Describes(basis) && job.CollisionFree(basis)
      requires tokens == [] && lastMatch == 0 && forall i :: 0 <= i < sameOffset.Length ==> !sameOffset[i]
      modifies this, hashTable, chain, sameOffset
      ensures sameOffset == old(sameOffset) && Finished(job, basis, tokens, sameOffset[..], exact)
      ensures Logged(job, tokens, log) && (exact <==> AllRight(job, log)) && Thorough(job, tokens, log)
      ensures !job.inPlace || ZeroSumsAgree(job) ==> exact
    {
      if 0 < |job.src| && 0 < |job.sums| {
        BuildHashTable();
        exact, log := HashSearch(basis);
      } else {
        hide Progress, Finished, CopiesAt, Logged, AllRight;
        exact, log := true, [];
        NothingLogged(job);
        ghost var ts := tokens;
        NothingYet(job, basis, sameOffset[..]);
        assert job.Inside(basis) by {
          if job.sums != [] {
            PositiveBlocks(job, basis);
          }
        }
        var j := CHUNK_SIZE;
        while j < |job.src|
          invariant 0 <= lastMatch == j - CHUNK_SIZE <= |job.src| && Shaped() && sameOffset == old(sameOffset)
          invariant Progress(job, basis, tokens, lastMatch, sameOffset[..], exact)
          invariant CopiesAt(job, tokens) == CopiesAt(job, ts)
        {
          Flush(j, false, basis, exact);
          j := j + CHUNK_SIZE;
        }
        Flush(|job.src|, true, basis, exact);
        SameCopies(job, ts, tokens, log);
        NothingToFind(job, tokens, log);
      }
    }
  }

  lemma NothingToFind(job: Job, ts: seq<Token>, log: seq<Look>)
    requires job.src == [] || job.sums == []
    ensures Thorough(job, ts, log)
  {
  }

  lemma NothingLogged(job: Job)
    ensures Logged(job, [], []) && AllRight(job, [])
  {
  }

  lemma SameCopies(job: Job, ts: seq<Token>, ts': seq<Token>, log: seq<Look>)
    requires Logged(job, ts, log) && CopiesAt(job, ts') == CopiesAt(job, ts)
    ensures Logged(job, ts', log)
  {
    hide CopiesAt, Sees, Pick;
  }

  lemma OutAt(job: Job, basis: seq<byte>, ts: seq<Token>, lastMatch: nat, flags: seq<bool>, exact: bool)
    requires Progress(job, basis, ts, lastMatch, flags, exact)
    ensures job.OutLen(ts) == lastMatch
  {
  }

  /** match.c:283-286: move the aligned position up to the offset. */
  method Align(job: Job, offset: nat, h: Hints) returns (aligned: nat, alignedI: nat)
    requires 0 < job.blength && HintsOk(job, offset, h)
    ensures job.inPlace ==> aligned == alignedI * job.blength && offset <= aligned < offset + job.blength
    ensures forall w: nat :: HintsOk(job, offset, Hints(w, aligned, alignedI))
  {
    aligned, alignedI := h.aligned, h.alignedI;
    if job.inPlace {
      while aligned < offset
        invariant aligned == alignedI * job.blength && aligned < offset + job.blength
      {
        aligned, alignedI := aligned + job.blength, alignedI + 1;
      }
    }
  }

  /** How much unsent data can be pending at a loop head. */
  ghost predicate Pending(job: Job, end: int, offset: int, lastMatch: int) {
    offset - lastMatch <= job.blength + CHUNK_SIZE + if offset > end - CHUNK_SIZE then offset - (end - CHUNK_SIZE) else 0
  }

  lemma HintsAdvance(job: Job, basis: seq<byte>, offset: nat, h: Hints, offset': nat)
    requires job.Describes(basis) && offset <= offset'
    requires HintsOk(job, offset, h) || h.aligned == h.alignedI == 0
    ensures 0 < job.blength && HintsOk(job, offset', h)
  {
  }

  lemma AtWindowBounds(job: Job, offset: nat, r: Rolled)
    requires 0 < job.blength && offset < |job.src| && AtWindow(job, offset, r)
    ensures 0 < r.k && offset + r.k <= |job.src|
  {
  }

  lemma PositiveBlocks(job: Job, basis: seq<byte>)
    requires job.Describes(basis)
    ensures 0 < job.blength && job.Inside(basis)
  {
  }

  lemma BlockLen(job: Job, basis: seq<byte>, i: nat)
    requires job.Describes(basis) && i < |job.sums|
    ensures 1 <= job.sums[i].len <= job.blength
  {
  }

  lemma ChoiceSound(job: Job, basis: seq<byte>, flags: seq<bool>, offset: nat, i: nat, wantI: nat,
                    aligned: nat, alignedI: nat)
    requires job.Describes(basis) && job.CollisionFree(basis) && |flags| == |job.sums|
    requires offset < |job.src| && i < |job.sums| && job.Hit(i, offset)
    ensures !job.inPlace || ZeroSumsAgree(job) ==> !Misread(job, flags, offset, i, wantI, aligned, alignedI)
  {
    if job.inPlace && ZeroSumsAgree(job) {
      NeverMisread(job, basis, flags, offset, i, wantI, aligned, alignedI);
    }
  }

  function TokenFor(i: int): seq<Token> {
    if i >= 0 then [Copy(i)] else if i == -1 then [End] else []
  }
}
