/** The circular buffers of io.c: where bytes lie, and what the copies and size changes keep. */
module Ring {
  import opened Bytes

  /** The physical index of the i-th byte of a ring that starts at pos. */
  function At(size: nat, pos: nat, i: nat): nat
    requires pos < size && i <= size
  {
    if pos + i < size then pos + i else pos + i - size
  }

  /** The first n bytes of the ring. */
  function Get(mem: seq<byte>, size: nat, pos: nat, n: nat): seq<byte>
    requires pos < size <= |mem| && n <= size
  {
    seq(n, i requires 0 <= i < n => mem[At(size, pos, i)])
  }

  /** memcpy of data to a linear stretch of memory. */
  function Copied(mem: seq<byte>, at: nat, data: seq<byte>): seq<byte>
    requires at + |data| <= |mem|
  {
    mem[..at] + data + mem[at + |data|..]
  }

  /** The possibly split copy of write_buf (io.c:2267-2276) behind the len bytes present. */
  function Put(mem: seq<byte>, size: nat, pos: nat, len: nat, data: seq<byte>): (mem': seq<byte>)
    requires pos < size <= |mem| && len + |data| <= size
    ensures |mem'| == |mem|
  {
    var tail := At(size, pos, len);
    var siz := size - tail;
    if tail >= pos && siz < |data| then Copied(Copied(mem, tail, data[..siz]), 0, data[siz..])
    else Copied(mem, tail, data)
  }

  lemma PutExtends(mem: seq<byte>, size: nat, pos: nat, len: nat, data: seq<byte>)
    requires pos < size <= |mem| && len + |data| <= size
    ensures var mem' := Put(mem, size, pos, len, data);
      |mem'| == |mem| && Get(mem', size, pos, len + |data|) == Get(mem, size, pos, len) + data
  {
    hide Copied;
    var mem', tail := Put(mem, size, pos, len, data), At(size, pos, len);
    var siz := size - tail;
    if tail >= pos && siz < |data| {
      var half := Copied(mem, tail, data[..siz]);
      CopiedAt(mem, tail, data[..siz]);
      CopiedAt(half, 0, data[siz..]);
    } else {
      CopiedAt(mem, tail, data);
    }
  }

  lemma CopiedAt(mem: seq<byte>, at: nat, data: seq<byte>)
    requires at + |data| <= |mem|
    ensures var mem' := Copied(mem, at, data);
      && |mem'| == |mem|
      && forall j :: 0 <= j < |mem| ==> mem'[j] == if at <= j < at + |data| then data[j - at] else mem[j]
  {
  }

  /** Overwriting a stretch of the ring that does not wrap. */
  lemma Poke(mem: seq<byte>, size: nat, pos: nat, n: nat, k: nat, data: seq<byte>)
    requires pos < size <= |mem| && k + |data| <= n <= size
    requires data != [] ==> At(size, pos, k) + |data| <= size
    ensures data != [] ==>
      Get(Copied(mem, At(size, pos, k), data), size, pos, n)
      == Get(mem, size, pos, n)[..k] + data + Get(mem, size, pos, n)[k + |data|..]
  {
  }

  /** A ring that starts at 0 or does not reach its end may change size. */
  lemma Resize(mem: seq<byte>, size: nat, pos: nat, n: nat, size': nat)
    requires pos < size <= |mem| && pos < size' <= |mem| && n <= size && n <= size'
    requires pos + n <= size && pos + n <= size'
    ensures Get(mem, size, pos, n) == Get(mem, size', pos, n)
  {
  }

  /** A linear stretch of the ring. */
  lemma Straight(mem: seq<byte>, size: nat, pos: nat, n: nat)
    requires pos < size <= |mem| && pos + n <= size
    ensures Get(mem, size, pos, n) == mem[pos..pos + n]
  {
  }

  /** The message buffer's growth (io.c:996-1000): the wrapped part moves behind the old end. */
  lemma Double(mem: seq<byte>, size: nat, pos: nat, len: nat, mem': seq<byte>)
    requires pos < size <= |mem| && len <= size && 2 * |mem| <= |mem'| && mem == mem'[..|mem|]
    ensures var wrapped := if pos + len > size then pos + len - size else 0;
      Get(Copied(mem', size, mem[..wrapped]), |mem'|, pos, len) == Get(mem, size, pos, len)
  {
  }
}
