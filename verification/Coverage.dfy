/** Which offsets the search of match.c looks at, and what it cannot have missed there. */
module Coverage {
  import opened Bytes
  import opened Rolling
  import opened Delta
  import opened Match
  import opened Emission
  import opened WeakTable

  /** The output byte at position o comes from a literal. */
  predicate InLiteral(job: Job, ts: seq<Token>, o: nat) {
    ts != [] &&
    var init, last := ts[..|ts| - 1], ts[|ts| - 1];
    InLiteral(job, init, o) || (last.Literal? && job.OutLen(init) <= o < job.OutLen(init) + |last.data|)
  }

  /** A realignment moved from before o to a position after it. */
  ghost predicate Jumped(job: Job, log: seq<Look>, o: nat) {
    exists k :: 0 <= k < |log| && Sees(job, log[k]) && log[k].offset <= o < Pick(job, log[k]).offset
  }

  /** Block j had been found at its own position when the search came to o. */
  ghost predicate Marked(job: Job, log: seq<Look>, o: nat, j: nat) {
    exists k :: 0 <= k < |log| && Sees(job, log[k]) && log[k].offset < o && Keeps(job, log[k], j)
  }

  ghost predicate Keeps(job: Job, l: Look, j: nat)
    requires Sees(job, l)
  {
    Pick(job, l).same && Pick(job, l).i == j
  }

  /** A block that the search may use at o. */
  ghost predicate Usable(job: Job, log: seq<Look>, o: nat, j: nat)
    requires j < |job.sums|
  {
    !job.inPlace || job.sums[j].offset >= o || Marked(job, log, o, j)
  }

  /** Unless more blocks share the weak sum than a chain is followed, no usable block fits at o. */
  ghost predicate NoneFits(job: Job, log: seq<Look>, o: nat)
    requires o < |job.src|
  {
    CountWeak(job.sums, Weak(job.Here(o)), 0) <= MAX_CHAIN_LEN ==>
      forall j :: 0 <= j < |job.sums| && Usable(job, log, o, j) ==> !job.Hit(j, o)
  }

  ghost predicate LookedAt(job: Job, log: seq<Look>, o: nat) {
    o < |job.src| ==> Jumped(job, log, o) || NoneFits(job, log, o)
  }

  /** The marks in force are those of the choices made. */
  ghost predicate MarksAre(job: Job, flags: seq<bool>, log: seq<Look>) {
    && |flags| == |job.sums|
    && forall k, j :: 0 <= k < |log| && Sees(job, log[k]) && 0 <= j < |flags| && Keeps(job, log[k], j) ==> flags[j]
  }

  /** Everything before `upto` that is not copied has been looked at in vain. */
  ghost predicate Looked(job: Job, ts: seq<Token>, lastMatch: nat, upto: nat, flags: seq<bool>, log: seq<Look>) {
    && job.OutLen(ts) == lastMatch <= upto
    && MarksAre(job, flags, log)
    && forall o: nat :: InLiteral(job, ts, o) || lastMatch <= o < upto ==> LookedAt(job, log, o)
  }

  /** Nothing that could be copied was sent as a literal: every position of a literal before the last block length was
      looked at in vain. */
  ghost predicate Thorough(job: Job, ts: seq<Token>, log: seq<Look>) {
    job.sums != [] ==>
      forall o: nat :: InLiteral(job, ts, o) && (o == 0 || o < |job.src| + 1 - job.sums[|job.sums| - 1].len) ==>
        LookedAt(job, log, o)
  }

  lemma {:induction false} LiteralEnds(job: Job, ts: seq<Token>, o: nat)
    requires InLiteral(job, ts, o)
    ensures o < job.OutLen(ts)
  {
    var init := ts[..|ts| - 1];
    if InLiteral(job, init, o) {
      LiteralEnds(job, init, o);
    }
  }

  lemma OneMoreLiteral(job: Job, ts: seq<Token>, t: Token, o: nat)
    ensures InLiteral(job, ts + [t], o) <==>
      InLiteral(job, ts, o) || (t.Literal? && job.OutLen(ts) <= o < job.OutLen(ts) + |t.data|)
  {
    assert (ts + [t])[..|ts|] == ts;
  }

  /** Sending what is pending, and a token that is no literal, covers just the pending positions. */
  lemma LiteralSpan(job: Job, ts: seq<Token>, lastMatch: nat, offset: nat, more: seq<Token>, o: nat)
    requires job.OutLen(ts) == lastMatch <= offset <= |job.src|
    requires more == [] || (|more| == 1 && !more[0].Literal?)
    ensures var ts' := Emitted(job, ts, lastMatch, offset, more);
      InLiteral(job, ts', o) <==> InLiteral(job, ts, o) || lastMatch <= o < offset
  {
    hide InLiteral, Job.OutLen;
    var sent := Emitted(job, ts, lastMatch, offset, []);
    if lastMatch < offset {
      var t := Literal(job.src[lastMatch..offset]);
      assert sent == ts + [t];
      OneMoreLiteral(job, ts, t, o);
    } else {
      assert sent == ts;
    }
    if more == [] {
      assert Emitted(job, ts, lastMatch, offset, more) == sent;
    } else {
      assert Emitted(job, ts, lastMatch, offset, more) == sent + [more[0]];
      OneMoreLiteral(job, sent, more[0], o);
    }
  }

  /** One more choice, made at or after o, changes nothing for o. */
  lemma LaterLook(job: Job, log: seq<Look>, l: Look, o: nat)
    requires o <= l.offset && LookedAt(job, log, o)
    ensures LookedAt(job, log + [l], o)
  {
    hide Sees, Pick, Keeps, Job.Hit, CountWeak, Weak;
    var more := log + [l];
    if o < |job.src| {
      if Jumped(job, log, o) {
        var k :| 0 <= k < |log| && Sees(job, log[k]) && log[k].offset <= o < Pick(job, log[k]).offset;
        assert more[k] == log[k];
      } else {
        forall j | 0 <= j < |job.sums| && Usable(job, more, o, j) ensures Usable(job, log, o, j) {
          if Marked(job, more, o, j) {
            var k :| 0 <= k < |more| && Sees(job, more[k]) && more[k].offset < o && Keeps(job, more[k], j);
            assert k < |log| && log[k] == more[k];
          }
        }
      }
    }
  }

  lemma StartLooking(job: Job, flags: seq<bool>)
    requires |flags| == |job.sums|
    ensures Looked(job, [], 0, 0, flags, [])
  {
  }

  /** A look that finds nothing. */
  lemma LookMissed(job: Job, ts: seq<Token>, lastMatch: nat, offset: nat, flags: seq<bool>, log: seq<Look>)
    requires Looked(job, ts, lastMatch, offset, flags, log) && offset < |job.src|
    requires CountWeak(job.sums, Weak(job.Here(offset)), 0) <= MAX_CHAIN_LEN ==> !SomeHit(job, flags, offset)
    ensures Looked(job, ts, lastMatch, offset + 1, flags, log)
  {
    hide InLiteral, Job.OutLen, CountWeak, Weak, Job.Hit, Keeps, Sees, Jumped;
    forall j | 0 <= j < |job.sums| && Usable(job, log, offset, j) ensures Live(job, flags, j, offset) {
    }
    assert LookedAt(job, log, offset);
  }

  /** Pending bytes sent early. */
  lemma LookFlushed(job: Job, ts: seq<Token>, lastMatch: nat, upto: nat, flags: seq<bool>, log: seq<Look>, offset: nat)
    requires Looked(job, ts, lastMatch, upto, flags, log) && lastMatch <= offset <= upto && offset <= |job.src|
    ensures Looked(job, Emitted(job, ts, lastMatch, offset, []), offset, upto, flags, log)
  {
    hide InLiteral, LookedAt, MarksAre, Job.OutLen, CopiesAt;
    LiteralCopies(job, ts, lastMatch, offset);
    forall o: nat ensures InLiteral(job, Emitted(job, ts, lastMatch, offset, []), o) <==>
      InLiteral(job, ts, o) || lastMatch <= o < offset
    {
      LiteralSpan(job, ts, lastMatch, offset, [], o);
    }
  }

  /** A look that finds a block: what it jumps over is before the choice. */
  lemma LookFound(job: Job, ts: seq<Token>, lastMatch: nat, flags: seq<bool>, log: seq<Look>, l: Look, flags': seq<bool>)
    requires Sees(job, l) && Looked(job, ts, lastMatch, l.offset, flags, log)
    requires var c := Pick(job, l);
      l.offset <= c.offset <= |job.src| && c.i < |flags| && flags' == if c.same then flags[c.i := true] else flags
    ensures var c := Pick(job, l);
      var last := c.offset + job.TokenLen(Copy(c.i));
      Looked(job, Emitted(job, ts, lastMatch, c.offset, [Copy(c.i)]), last, last, flags', log + [l])
  {
    hide InLiteral, LookedAt, MarksAre, Job.OutLen, CopiesAt, Sees, Pick;
    var c, more := Pick(job, l), log + [l];
    var sent, ts' := Emitted(job, ts, lastMatch, c.offset, []), Emitted(job, ts, lastMatch, c.offset, [Copy(c.i)]);
    LiteralCopies(job, ts, lastMatch, c.offset);
    assert ts' == sent + [Copy(c.i)];
    job.OneMore([], sent, Copy(c.i));
    MoreMarks(job, flags, log, l, flags');
    forall o: nat | InLiteral(job, ts', o) ensures LookedAt(job, more, o) {
      LiteralSpan(job, ts, lastMatch, c.offset, [Copy(c.i)], o);
      if o < l.offset || InLiteral(job, ts, o) {
        if InLiteral(job, ts, o) {
          LiteralEnds(job, ts, o);
        }
        LaterLook(job, log, l, o);
      } else {
        JumpedOver(job, log, l, o);
      }
    }
  }

  lemma JumpedOver(job: Job, log: seq<Look>, l: Look, o: nat)
    requires Sees(job, l) && l.offset <= o < Pick(job, l).offset
    ensures LookedAt(job, log + [l], o)
  {
    hide Sees, Pick, NoneFits;
    assert (log + [l])[|log|] == l;
  }

  lemma MoreMarks(job: Job, flags: seq<bool>, log: seq<Look>, l: Look, flags': seq<bool>)
    requires Sees(job, l) && MarksAre(job, flags, log)
    requires var c := Pick(job, l); c.i < |flags| && flags' == if c.same then flags[c.i := true] else flags
    ensures MarksAre(job, flags', log + [l])
  {
    hide Sees, Pick;
    var more := log + [l];
    forall k, j | 0 <= k < |more| && Sees(job, more[k]) && 0 <= j < |flags'| && Keeps(job, more[k], j) ensures flags'[j] {
      if k < |log| {
        assert more[k] == log[k];
      }
    }
  }

  /** The end: what is left over is shorter than the last block. */
  lemma AllLooked(job: Job, ts: seq<Token>, lastMatch: nat, upto: nat, flags: seq<bool>, log: seq<Look>)
    requires Looked(job, ts, lastMatch, upto, flags, log) && lastMatch <= |job.src|
    requires 0 < upto && (job.sums != [] ==> |job.src| + 1 - job.sums[|job.sums| - 1].len <= upto)
    ensures Thorough(job, Emitted(job, ts, lastMatch, |job.src|, [End]), log)
  {
    hide InLiteral, LookedAt, MarksAre, Job.OutLen;
    forall o: nat ensures InLiteral(job, Emitted(job, ts, lastMatch, |job.src|, [End]), o) <==>
      InLiteral(job, ts, o) || lastMatch <= o < |job.src|
    {
      LiteralSpan(job, ts, lastMatch, |job.src|, [End], o);
    }
  }

  /** The end marker covers nothing. */
  lemma WithoutEnd(job: Job, ts: seq<Token>, log: seq<Look>)
    requires Thorough(job, ts + [End], log)
    ensures Thorough(job, ts, log)
  {
    hide InLiteral, LookedAt;
    forall o: nat ensures InLiteral(job, ts + [End], o) <==> InLiteral(job, ts, o) {
      OneMoreLiteral(job, ts, End, o);
    }
  }

  /** Into a fresh file: where a literal is sent no block fits at all, unless the chain was cut. */
  lemma FreshThorough(job: Job, ts: seq<Token>, log: seq<Look>, o: nat, j: nat)
    requires !job.inPlace && Thorough(job, ts, log) && Logged(job, ts, log) && InLiteral(job, ts, o) && o < |job.src|
    requires j < |job.sums| && (o == 0 || o < |job.src| + 1 - job.sums[|job.sums| - 1].len)
    requires CountWeak(job.sums, Weak(job.Here(o)), 0) <= MAX_CHAIN_LEN
    ensures !job.Hit(j, o)
  {
    hide InLiteral, CountWeak, Weak, Job.Hit, CopiesAt;
    assert LookedAt(job, log, o);
    if Jumped(job, log, o) {
      var k :| 0 <= k < |log| && Sees(job, log[k]) && log[k].offset <= o < Pick(job, log[k]).offset;
      StaysPut(job, log[k]);
    }
    assert Usable(job, log, o, j);
  }

  /** Into a fresh file a choice stays where it was made. */
  lemma StaysPut(job: Job, l: Look)
    requires !job.inPlace && Sees(job, l)
    ensures Pick(job, l).offset == l.offset && !Pick(job, l).same
  {
    hide Weak;
  }
}
