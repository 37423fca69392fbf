/** fileio.c:52-196: writing a new file, with or without holes. */
module SparseFile {
  import opened Bytes

  const SPARSE_WRITE_SIZE := 1024
  const WRITE_BUF_SIZE := 8 * 32 * 1024

  lemma HoleIs(z: seq<byte>)
    requires forall i :: 0 <= i < |z| ==> z[i] == 0
    ensures z == Zeros(|z|)
  {
  }

  /** A file, as the system keeps it: contents and position. */
  datatype Disk = Disk(data: seq<byte>, pos: nat)
  {
    /** write() at the position; a gap before it reads as zeros. */
    function Write(b: seq<byte>): Disk {
      var upTo := if |data| < pos then data + Zeros(pos - |data|) else data[..pos];
      var after := if pos + |b| <= |data| then data[pos + |b|..] else [];
      Disk(upTo + b + after, pos + |b|)
    }

    /** ftruncate(). */
    function Truncate(size: nat): Disk {
      Disk(if size <= |data| then data[..size] else data + Zeros(size - |data|), pos)
    }
  }

  lemma Cut(b: seq<byte>, i: nat, j: nat)
    requires i <= j <= |b|
    ensures b == b[..i] + b[i..j] + b[j..]
  {
  }

  /** Writing after a seek past the end. */
  lemma WriteAfterGap(data: seq<byte>, gap: nat, b: seq<byte>)
    ensures Disk(data, |data| + gap).Write(b) == Disk(data + Zeros(gap) + b, |data| + gap + |b|)
  {
    hide Zeros;
    if gap == 0 {
      assert data[..|data|] == data && data + Zeros(0) == data;
    }
    assert data + Zeros(gap) + b + [] == data + Zeros(gap) + b;
  }

  lemma HolesJoin(m: nat, n: nat)
    ensures Zeros(m) + Zeros(n) == Zeros(m + n)
  {
    HoleIs(Zeros(m) + Zeros(n));
  }

  /** The bytes of a chunk, up to what was written of its middle part. */
  lemma Pieces(b: seq<byte>, l1: nat, l2: nat, n: nat)
    requires l1 + l2 <= |b| && b == Zeros(l1) + b[l1..|b| - l2] + Zeros(l2) && n <= |b| - l2 - l1
    ensures b[..l1 + n] == Zeros(l1) + b[l1..|b| - l2][..n]
  {
  }

  /** Owed zeros, leading zeros, middle, trailing zeros: the file plus what is now owed. */
  lemma Account(data: seq<byte>, owed: nat, l1: nat, mid: seq<byte>, l2: nat)
    ensures data + Zeros(owed) + (Zeros(l1) + mid + Zeros(l2)) == data + Zeros(owed + l1) + mid + Zeros(l2)
  {
    HolesJoin(owed, l1);
    Regroup(data, Zeros(owed), Zeros(l1), mid, Zeros(l2));
  }

  lemma Regroup(a: seq<byte>, b: seq<byte>, c: seq<byte>, d: seq<byte>, e: seq<byte>)
    ensures a + b + (c + d + e) == a + (b + c) + d + e
  {
  }

  /** Leading and trailing zeros of a chunk, as write_sparse counts them. */
  method CountZeros(b: seq<byte>) returns (l1: nat, l2: nat)
    ensures l1 + l2 <= |b|
    ensures b == Zeros(l1) + b[l1..|b| - l2] + Zeros(l2)
    ensures l1 == |b| || (b[l1] != 0 && b[|b| - l2 - 1] != 0)
  {
    l1, l2 := 0, 0;
    while l1 < |b| && b[l1] == 0
      invariant l1 <= |b| && forall i :: 0 <= i < l1 ==> b[i] == 0
    {
      l1 := l1 + 1;
    }
    while l2 < |b| - l1 && b[|b| - (l2 + 1)] == 0
      invariant l1 + l2 <= |b| && forall i :: |b| - l2 <= i < |b| ==> b[i] == 0
    {
      l2 := l2 + 1;
    }
    HoleIs(b[..l1]);
    HoleIs(b[|b| - l2..]);
    Cut(b, l1, |b| - l2);
  }

  /** What was handed to write(), and where the file stood. */
  datatype Call = Call(pos: nat, bytes: seq<byte>)

  ghost predicate AllZero(b: seq<byte>) {
    forall i :: 0 <= i < |b| ==> b[i] == 0
  }

  /** No zero at either end. */
  predicate Trimmed(b: seq<byte>) {
    b != [] && b[0] != 0 && b[|b| - 1] != 0
  }

  /** The call hands over the bytes of the chunk from its first to its last non-zero one, at their place after `at`. */
  ghost predicate Middle(b: seq<byte>, at: nat, c: Call) {
    var k := c.pos - at;
    && Trimmed(c.bytes) && 0 <= k && k + |c.bytes| <= |b| && c.bytes == b[k..k + |c.bytes|]
    && AllZero(b[..k]) && AllZero(b[k + |c.bytes|..])
  }

  ghost predicate Handed(was: seq<Call>, now: seq<Call>, b: seq<byte>, at: nat) {
    |now| == |was| + 1 && now[..|was|] == was && Middle(b, at, now[|was|])
  }

  /** Where the last non-zero byte of the chunk ends. */
  ghost function MiddleEnd(at: nat, c: Call): int {
    c.pos - at + |c.bytes|
  }

  class Writer {
    const sparse: bool
    /** No system call fails; a write may still take only part of the bytes. */
    const reliable: bool
    var disk: Disk
    var seek: nat
    var pastWrite: int
    var buf: seq<byte>
    /** Everything written so far. */
    ghost var done: seq<byte>
    ghost var calls: seq<Call>

    /** The position plus the hole still owed is the logical offset; what is buffered comes after the file. */
    ghost predicate Valid()
      reads this
    {
      && disk.pos == |disk.data| && |buf| < WRITE_BUF_SIZE
      && (sparse ==> forall i :: 0 <= i < |calls| ==> Trimmed(calls[i].bytes))
      && if sparse then buf == [] && done == disk.data + Zeros(seek) && pastWrite >= 0
         else seek == 0 && done == disk.data + buf
    }

    constructor (sparse: bool, reliable: bool)
      ensures Valid() && done == [] && calls == [] && this.sparse == sparse && this.reliable == reliable
    {
      this.sparse, this.reliable := sparse, reliable;
      disk, seek, pastWrite, buf := Disk([], 0), 0, 0, [];
      done, calls := [], [];
    }

    /** The system call: some of the bytes, at least one, or an error. */
    method SysWrite(b: seq<byte>) returns (n: int)
      requires b != []
      modifies this`disk, this`calls
      ensures n <= |b| && n != 0 && (reliable ==> n > 0)
      ensures calls == old(calls) + [Call(old(disk.pos), b)]
      ensures disk == if n > 0 then old(disk).Write(b[..n]) else old(disk)
    {
      calls := calls + [Call(disk.pos, b)];
      var ok := *;
      if ok || reliable {
        n :| 1 <= n <= |b|;
        disk := disk.Write(b[..n]);
      } else {
        n := -1;
      }
    }

    /** write_sparse on a new file without preallocation: the zeros at both ends are left as holes, and a chunk of zeros is
        not written at all. */
    method WriteSparse(offset: nat, b: seq<byte>) returns (r: int)
      requires Valid() && sparse && b != []
      modifies this
      ensures r <= |b| && r != 0 && (reliable ==> r > 0)
      ensures r > 0 ==> Valid() && done == old(done) + b[..r]
      ensures AllZero(b) ==> r == |b| && seek == old(seek) + |b| && disk == old(disk) && calls == old(calls)
      ensures !AllZero(b) ==> Handed(old(calls), calls, b, old(disk.pos + seek)) || (calls == old(calls) && r < 0)
      ensures !AllZero(b) && r > 0 ==> pastWrite == offset + MiddleEnd(old(disk.pos + seek), calls[|calls| - 1])
      ensures !AllZero(b) && r > 0 ==>
        seek == if r == |b| then |b| - MiddleEnd(old(disk.pos + seek), calls[|calls| - 1]) else 0
    {
      hide Zeros, Disk.Write;
      var l1, l2 := CountZeros(b);
      Ends(b, l1, l2);
      if l1 == |b| {
        AllHole(disk.data, seek, b, l2);
        seek := seek + l1;
        done := done + b;
        assert b[..|b|] == b;
        return |b|;
      }
      r := WriteMiddle(offset, b, l1, l2);
    }

    /** fileio.c:98-127: seek over the hole and write what lies between the zeros. */
    method WriteMiddle(offset: nat, b: seq<byte>, l1: nat, l2: nat) returns (r: int)
      requires Valid() && sparse && l1 + l2 < |b| && b == Zeros(l1) + b[l1..|b| - l2] + Zeros(l2)
      requires Trimmed(b[l1..|b| - l2])
      modifies this
      ensures r <= |b| && r != 0 && (reliable ==> r > 0)
      ensures r > 0 ==> Valid() && done == old(done) + b[..r]
      ensures (calls == old(calls) && r < 0) || calls == old(calls) + [Call(old(disk.pos + seek) + l1, b[l1..|b| - l2])]
      ensures r > 0 ==> pastWrite == offset + |b| - l2 && seek == if r == |b| then l2 else 0
    {
      hide Zeros, Disk.Write;
      ghost var was, owed := disk.data, seek;
      seek := seek + l1;
      if seek > 0 {
        var sought := *;
        if !sought && !reliable {
          return -1;
        }
        disk := Disk(disk.data, disk.pos + seek);
      }
      seek := l2;
      pastWrite := offset + |b| - l2;
      var mid := b[l1..|b| - l2];
      var n := SysWrite(mid);
      if n <= 0 {
        seek := 0;
        return n;
      }
      Written(was, owed, b, l1, l2, n);
      if n != |mid| {
        seek := 0;
        r := l1 + n;
      } else {
        r := |b|;
      }
      done := done + b[..r];
    }

    /** flush_write_file: the buffer, however the system takes it. */
    method Flush() returns (ok: bool)
      requires disk.pos == |disk.data|
      modifies this`disk, this`buf, this`calls
      ensures reliable ==> ok
      ensures ok ==> buf == [] && disk.pos == |disk.data| && disk.data == old(disk.data) + old(buf)
    {
      hide Zeros, Disk.Write;
      while buf != []
        invariant disk.pos == |disk.data| && disk.data + buf == old(disk.data) + old(buf)
        decreases |buf|
      {
        ghost var data := disk.data;
        var n := SysWrite(buf);
        if n < 0 {
          return false;
        }
        WriteAtEnd(data, buf[..n]);
        assert data + buf == data + buf[..n] + buf[n..];
        buf := buf[n..];
      }
      return true;
    }

    /** One pass of write_file's loop. */
    method WriteSome(offset: nat, b: seq<byte>) returns (n: int)
      requires Valid() && b != []
      modifies this
      ensures n <= |b| && (reliable ==> n > 0)
      ensures n > 0 ==> Valid() && done == old(done) + b[..n]
      ensures sparse && AllZero(b) ==> n > 0 && seek == old(seek) + n && disk == old(disk) && calls == old(calls)
      ensures !sparse && |old(buf)| + |b| < WRITE_BUF_SIZE ==>
        n == |b| && buf == old(buf) + b && disk == old(disk) && calls == old(calls)
    {
      hide Zeros;
      if sparse {
        var n1 := if |b| < SPARSE_WRITE_SIZE then |b| else SPARSE_WRITE_SIZE;
        assert AllZero(b) ==> AllZero(b[..n1]);
        n := WriteSparse(offset, b[..n1]);
        assert n > 0 ==> b[..n1][..n] == b[..n];
      } else {
        n := if |b| < WRITE_BUF_SIZE - |buf| then |b| else WRITE_BUF_SIZE - |buf|;
        assert n == |b| ==> b[..n] == b;
        var ok := Buffer(b[..n]);
        n := if ok then n else -1;
      }
    }

    /** write_file: all of it, in chunks, or less than all of it on an error. */
    method WriteFile(offset: nat, bytes: seq<byte>) returns (r: int)
      requires Valid()
      modifies this
      ensures -1 <= r <= |bytes| && (reliable ==> r == |bytes|)
      ensures r == |bytes| ==> Valid() && done == old(done) + bytes
      ensures sparse && AllZero(bytes) ==>
        r == |bytes| && seek == old(seek) + |bytes| && disk == old(disk) && calls == old(calls)
      ensures !sparse && |old(buf)| + |bytes| < WRITE_BUF_SIZE ==>
        r == |bytes| && buf == old(buf) + bytes && disk == old(disk) && calls == old(calls)
    {
      hide Zeros;
      r := 0;
      while r < |bytes|
        invariant 0 <= r <= |bytes| && Valid() && done == old(done) + bytes[..r]
        invariant sparse && AllZero(bytes) ==> seek == old(seek) + r && disk == old(disk) && calls == old(calls)
        invariant !sparse && |old(buf)| + |bytes| < WRITE_BUF_SIZE ==>
          buf == old(buf) + bytes[..r] && disk == old(disk) && calls == old(calls)
      {
        var n := WriteSome(offset + r, bytes[r..]);
        if n <= 0 {
          return if r > 0 && sparse then r else -1;
        }
        assert bytes[r..][..n] == bytes[r..r + n];
        assert bytes[..r + n] == bytes[..r] + bytes[r..r + n];
        r := r + n;
      }
      assert bytes[..r] == bytes;
    }

    method Buffer(b: seq<byte>) returns (ok: bool)
      requires Valid() && !sparse && |buf| + |b| <= WRITE_BUF_SIZE
      modifies this
      ensures reliable ==> ok
      ensures ok ==> Valid() && done == old(done) + b
      ensures |old(buf)| + |b| < WRITE_BUF_SIZE ==> ok && buf == old(buf) + b && disk == old(disk) && calls == old(calls)
    {
      hide Zeros;
      done := done + b;
      buf := buf + b;
      ok := true;
      if |buf| == WRITE_BUF_SIZE {
        ghost var data, all := disk.data, buf;
        ok := Flush();
        assert ok ==> disk.data + [] == data + all;
      }
    }

    /** sparse_end for a new file, or the last flush: the file is what was written. */
    method End(size: nat) returns (ok: bool)
      requires Valid() && size == |done|
      modifies this
      ensures reliable ==> ok
      ensures ok ==> disk.data == done == old(done) && Valid()
      ensures sparse ==> calls == old(calls)
    {
      hide Zeros;
      if sparse {
        ok := true;
        if seek > 0 {
          ok := *;
          if !ok && !reliable {
            seek, pastWrite := 0, 0;
            return;
          }
          ok := true;
          disk := disk.Truncate(size);
          disk := Disk(disk.data, |disk.data|);
        }
        assert disk.data == done by {
          NoHole(disk.data);
        }
        NoHole(disk.data);
        seek, pastWrite := 0, 0;
      } else {
        ok := Flush();
        assert ok ==> disk.data + [] == disk.data;
      }
    }
  }

  lemma WriteAtEnd(data: seq<byte>, b: seq<byte>)
    ensures Disk(data, |data|).Write(b) == Disk(data + b, |data| + |b|)
  {
    WriteAfterGap(data, 0, b);
    assert data + Zeros(0) == data;
  }

  lemma NoHole(data: seq<byte>)
    ensures data + Zeros(0) == data
  {
  }

  function Concat(parts: seq<seq<byte>>): seq<byte> {
    if parts == [] then [] else Concat(parts[..|parts| - 1]) + parts[|parts| - 1]
  }

  lemma {:induction false} PartZero(parts: seq<seq<byte>>, i: nat)
    requires i < |parts|
    ensures AllZero(Concat(parts)) ==> AllZero(parts[i])
  {
    var init, last := parts[..|parts| - 1], parts[|parts| - 1];
    var a := Concat(init);
    assert Concat(parts) == a + last;
    if AllZero(a + last) {
      assert AllZero(a) by {
        assert forall k :: 0 <= k < |a| ==> (a + last)[k] == a[k];
      }
      assert AllZero(last) by {
        assert forall k :: 0 <= k < |last| ==> (a + last)[|a| + k] == last[k];
      }
      if i < |init| {
        PartZero(init, i);
      }
    }
  }

  /** The counts of zeros at both ends say where the other bytes are. */
  lemma Ends(b: seq<byte>, l1: nat, l2: nat)
    requires l1 + l2 <= |b| && b == Zeros(l1) + b[l1..|b| - l2] + Zeros(l2)
    requires l1 == |b| || (b[l1] != 0 && b[|b| - l2 - 1] != 0)
    ensures AllZero(b) <==> l1 == |b|
    ensures l1 < |b| ==> Trimmed(b[l1..|b| - l2]) && AllZero(b[..l1]) && AllZero(b[|b| - l2..])
  {
    if l1 < |b| {
      var mid := b[l1..|b| - l2];
      assert forall i :: 0 <= i < l1 ==> b[i] == Zeros(l1)[i];
      assert forall i :: |b| - l2 <= i < |b| ==> b[i] == Zeros(l2)[i - (|b| - l2)];
    }
  }

  /** Any split into calls, with or without holes and with any short writes, leaves the same file: the concatenation. It
      is reported as done unless a write fails. */
  method WriteAll(sparse: bool, reliable: bool, parts: seq<seq<byte>>)
    returns (ok: bool, data: seq<byte>, ghost calls: seq<Call>)
    ensures reliable ==> ok
    ensures ok ==> data == Concat(parts)
    ensures ok && sparse ==> forall i :: 0 <= i < |calls| ==> Trimmed(calls[i].bytes)
    ensures sparse && AllZero(Concat(parts)) ==> calls == []
  {
    var w := new Writer(sparse, reliable);
    calls := [];
    var offset := 0;
    for i := 0 to |parts|
      invariant w.Valid() && w.done == Concat(parts[..i]) && offset == |w.done| && w.sparse == sparse && w.reliable == reliable
      invariant sparse && AllZero(Concat(parts)) ==> w.calls == []
    {
      PartZero(parts, i);
      var n := w.WriteFile(offset, parts[i]);
      if n != |parts[i]| {
        return false, [], w.calls;
      }
      offset := offset + n;
      assert parts[..i + 1][..i] == parts[..i];
    }
    assert parts[..|parts|] == parts;
    ok := w.End(offset);
    data, calls := w.disk.data, w.calls;
  }

  /** After a write of n bytes of the middle part the file accounts for the chunk up to there, or for all of it. */
  lemma Written(data: seq<byte>, owed: nat, b: seq<byte>, l1: nat, l2: nat, n: nat)
    requires l1 + l2 <= |b| && b == Zeros(l1) + b[l1..|b| - l2] + Zeros(l2) && n <= |b| - l2 - l1
    ensures var mid := b[l1..|b| - l2];
      var d := Disk(data, |data| + (owed + l1)).Write(mid[..n]);
      && d.pos == |d.data| && d.data + Zeros(0) == data + Zeros(owed) + b[..l1 + n]
      && (n == |mid| ==> d.data + Zeros(l2) == data + Zeros(owed) + b[..|b|])
  {
    hide Zeros, Disk.Write;
    var mid := b[l1..|b| - l2];
    WriteAfterGap(data, owed + l1, mid[..n]);
    PartSum(data, owed, b, l1, l2, n);
    if n == |mid| {
      WholeSum(data, owed, b, l1, l2);
      assert mid[..|mid|] == mid && b[..|b|] == b;
    }
  }

  lemma PartSum(data: seq<byte>, owed: nat, b: seq<byte>, l1: nat, l2: nat, n: nat)
    requires l1 + l2 <= |b| && b == Zeros(l1) + b[l1..|b| - l2] + Zeros(l2) && n <= |b| - l2 - l1
    ensures data + Zeros(owed + l1) + b[l1..|b| - l2][..n] + Zeros(0) == data + Zeros(owed) + b[..l1 + n]
  {
    hide Zeros;
    var part := b[l1..|b| - l2][..n];
    Pieces(b, l1, l2, n);
    Account(data, owed, l1, part, 0);
    assert Zeros(l1) + part + Zeros(0) == Zeros(l1) + part;
  }

  lemma WholeSum(data: seq<byte>, owed: nat, b: seq<byte>, l1: nat, l2: nat)
    requires l1 + l2 <= |b| && b == Zeros(l1) + b[l1..|b| - l2] + Zeros(l2)
    ensures data + Zeros(owed + l1) + b[l1..|b| - l2] + Zeros(l2) == data + Zeros(owed) + b
  {
    hide Zeros;
    Account(data, owed, l1, b[l1..|b| - l2], l2);
  }

  lemma AllHole(data: seq<byte>, owed: nat, b: seq<byte>, l2: nat)
    requires l2 == 0 && b == Zeros(|b|) + b[|b|..|b|] + Zeros(0)
    ensures data + Zeros(owed) + b == data + Zeros(owed + |b|) && b[..|b|] == b
  {
    hide Zeros;
    HolesJoin(owed, |b|);
    assert b == Zeros(|b|);
  }
}
