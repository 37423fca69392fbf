/** The two output rings of io.c as values: what each buffer operation does, and what it keeps. */
module OutBuffers {
  import opened Bytes
  import opened Codec
  import opened Frames
  import opened Ring

  /** io.c:135-136, 480-513: a buffer may be shortened by up to three bytes for a while. */
  ghost predicate Sized(mem: seq<byte>, size: nat) {
    && 1024 <= |mem| && |mem| % 256 == 0
    && (size == |mem| || |mem| - 4 < size < |mem|)
  }

  function Restored(size: nat): nat {
    if size % 256 != 0 then (size / 256 + 1) * 256 else size
  }

  lemma RestoredSize(mem: seq<byte>, size: nat)
    requires Sized(mem, size)
    ensures Restored(size) == |mem|
  {
  }

  // ---------- iobuf.out ----------

  /** iobuf.out with raw_data_header_pos (hdr) and raw_flushing_ends_before (ends, 0 when no frame is in progress). */
  datatype Out = Out(mem: seq<byte>, size: nat, pos: nat, len: nat, hdr: nat, ends: nat)
  {
    /** How many bytes of the frame in progress are still unsent. */
    function Left(): int {
      if ends == 0 then 0 else ends - pos
    }

    /** The ring holds the frame in progress, then four bytes reserved for the next header, then the pending data.  The
        reserved bytes may overlap unsent bytes as long as nothing is pending.  A shortened ring ends where the
        frame in progress ends. */
    ghost predicate Ok() {
      && Sized(mem, size) && |mem| < 0x100_0000 && pos < size && hdr + 4 <= size
      && (size < |mem| ==> ends == size)
      && (if ends == 0 then hdr == pos else pos < ends && ends - pos <= size && hdr == At(size, pos, ends - pos))
      && Left() + 4 <= len && (len <= size || len == Left() + 4)
    }

    ghost function Flushing(): seq<byte>
      requires Ok()
    {
      Get(mem, size, pos, Left())
    }

    ghost function Pending(): seq<byte>
      requires Ok()
    {
      if len <= size then Get(mem, size, pos, len)[Left() + 4..] else []
    }
  }

  /** io.c:682-708: fill in the header, turn everything pending into the frame in progress, reserve the next header. */
  function StartFrame(o: Out): Out
    requires o.pos + o.len <= 2 * o.size && o.hdr + 4 <= |o.mem| && 4 < o.len
  {
    var ends := o.pos + o.len;
    var mem := Copied(o.mem, o.hdr, Header(MSG_DATA, o.len - 4));
    if ends >= o.size then Out(mem, o.size, o.pos, o.len + 4, ends - o.size, ends)
    else if ends + 4 > o.size then Out(mem, ends, o.pos, o.len + 4, 0, ends)
    else Out(mem, o.size, o.pos, o.len + 4, ends, ends)
  }

  lemma StartFrameLayout(o: Out)
    requires o.Ok() && o.ends == 0 && 4 < o.len
    ensures o.pos + o.len <= 2 * o.size
    ensures StartFrame(o).Ok() && StartFrame(o).ends != 0
  {
    hide Header, Copied;
    CopiedAt(o.mem, o.hdr, Header(MSG_DATA, o.len - 4));
  }

  lemma StartFrameOk(o: Out)
    requires o.Ok() && o.ends == 0 && 4 < o.len
    ensures o.pos + o.len <= 2 * o.size
    ensures var o' := StartFrame(o);
      o'.Ok() && o'.ends != 0 && o'.Pending() == [] && o'.Flushing() == Frame(MSG_DATA, o.Pending()).Wire()
  {
    hide Header, Copied, Get;
    StartFrameLayout(o);
    var o', h, all := StartFrame(o), Header(MSG_DATA, o.len - 4), Get(o.mem, o.size, o.pos, o.len);
    CopiedAt(o.mem, o.hdr, h);
    GetLen(o.mem, o.size, o.pos, o.len);
    assert o.Pending() == all[4..] && |o.Pending()| == o.len - 4;
    Poke(o.mem, o.size, o.pos, o.len, 0, h);
    assert all[..0] + h + all[4..] == h + all[4..];
    if o'.size != o.size {
      Resize(o'.mem, o.size, o.pos, o.len, o'.size);
    }
    if o'.len <= o'.size {
      GetLen(o'.mem, o'.size, o'.pos, o'.len);
    }
  }

  lemma GetLen(mem: seq<byte>, size: nat, pos: nat, n: nat)
    requires pos < size <= |mem| && n <= size
    ensures |Get(mem, size, pos, n)| == n
  {
  }

  /** io.c:864-876 for iobuf.out: n bytes of the frame in progress have been written. */
  function Advance(o: Out, n: nat): Out
    requires n <= o.len
  {
    var pos, len := o.pos + n, o.len - n;
    var o1 := if pos == o.size
              then o.(pos := 0, ends := if o.ends >= o.size then o.ends - o.size else 0, size := Restored(o.size))
              else o.(pos := pos, ends := if pos == o.ends then 0 else o.ends);
    if len == 4 then o1.(len := len, pos := 0, size := Restored(o1.size), hdr := 0) else o1.(len := len)
  }

  lemma AdvanceLayout(o: Out, n: nat)
    requires o.Ok() && o.ends != 0 && n <= o.Left() && o.pos + n <= o.size
    ensures Advance(o, n).Ok() && Advance(o, n).Left() == o.Left() - n
    ensures Advance(o, n).len > 4 ==> Advance(o, n).pos == if o.pos + n == o.size then 0 else o.pos + n
  {
    RestoredSize(o.mem, o.size);
    RestoredSize(o.mem, |o.mem|);
  }

  /** A shortened ring keeps its size until the frame that ends there is out. */
  lemma AdvanceShort(o: Out, n: nat)
    requires o.Ok() && o.ends != 0 && n <= o.Left() && o.pos + n <= o.size
    ensures o.size < |o.mem| && Advance(o, n).ends != 0 ==> Advance(o, n).size == o.size
  {
    RestoredSize(o.mem, o.size);
    RestoredSize(o.mem, |o.mem|);
  }

  lemma AdvanceMsgSize(m: Msg, n: nat)
    requires m.Ok() && n <= m.len
    ensures m.size <= AdvanceMsg(m, n).size
  {
    RestoredSize(m.mem, m.size);
    RestoredSize(m.mem, |m.mem|);
  }

  /** The rest of a ring after n bytes, also when the read position wraps and the size is restored. */
  lemma Shifted(mem: seq<byte>, size: nat, pos: nat, k: nat, n: nat, size': nat)
    requires pos < size <= size' <= |mem| && n <= k <= size && pos + n <= size
    requires pos + n == size || size' == size
    ensures var pos' := if pos + n == size then 0 else pos + n;
      Get(mem, size', pos', k - n) == Get(mem, size, pos, k)[n..]
  {
  }

  lemma AdvanceOk(o: Out, n: nat)
    requires o.Ok() && o.ends != 0 && n <= o.Left() && o.pos + n <= o.size
    ensures var o' := Advance(o, n);
      && o'.Ok() && Get(o.mem, o.size, o.pos, n) == o.Flushing()[..n]
      && o'.Flushing() == o.Flushing()[n..] && o'.Pending() == o.Pending()
  {
    hide Get, Restored;
    AdvanceLayout(o, n);
    RestoredSize(o.mem, o.size);
    RestoredSize(o.mem, |o.mem|);
    var o', k := Advance(o, n), o.Left();
    var size' := if o.pos + n == o.size then |o.mem| else o.size;
    GetLen(o.mem, o.size, o.pos, k);
    SplitFront(o.mem, o.size, o.pos, k, n);
    GetLen(o'.mem, o'.size, o'.pos, k - n);
    Shifted(o.mem, o.size, o.pos, k, n, size');
    if o.len <= o.size {
      GetLen(o.mem, o.size, o.pos, o.len);
      Shifted(o.mem, o.size, o.pos, o.len, n, size');
      var all := Get(o.mem, o.size, o.pos, o.len);
      assert all[n..][k - n + 4..] == all[k + 4..];
    }
    if o'.len <= o'.size {
      GetLen(o'.mem, o'.size, o'.pos, o'.len);
    }
  }

  lemma SplitFront(mem: seq<byte>, size: nat, pos: nat, k: nat, n: nat)
    requires pos < size <= |mem| && n <= k <= size
    ensures Get(mem, size, pos, n) == Get(mem, size, pos, k)[..n]
  {
  }

  /** io.c:2267-2278. */
  function Append(o: Out, data: seq<byte>): Out
    requires o.pos < o.size <= |o.mem| && o.len + |data| <= o.size
  {
    o.(mem := Put(o.mem, o.size, o.pos, o.len, data), len := o.len + |data|)
  }

  lemma AppendOk(o: Out, data: seq<byte>)
    requires o.Ok() && o.len + |data| <= o.size
    ensures var o' := Append(o, data);
      o'.Ok() && o'.Flushing() == o.Flushing() && o'.Pending() == o.Pending() + data
  {
    hide Get, Put;
    PutExtends(o.mem, o.size, o.pos, o.len, data);
    var o', k, all := Append(o, data), o.Left(), Get(o.mem, o.size, o.pos, o.len);
    GetLen(o.mem, o.size, o.pos, o.len);
    SplitFront(o.mem, o.size, o.pos, o.len, k);
    SplitFront(o'.mem, o.size, o.pos, o'.len, k);
    assert (all + data)[..k] == all[..k] && (all + data)[k + 4..] == all[k + 4..] + data;
  }

  lemma OutBounds(o: Out)
    requires o.Ok()
    ensures o.pos < o.size <= |o.mem| && 0 <= o.Left() <= o.size && o.Left() + 4 <= o.len && o.hdr + 4 <= o.size
    ensures o.ends != 0 ==> o.pos < o.ends
    ensures o.ends == 0 ==> o.len <= o.size == |o.mem| && o.hdr == o.pos
  {
  }

  // ---------- iobuf.msg ----------

  lemma MsgBounds(m: Msg)
    requires m.Ok()
    ensures m.pos < m.size <= |m.mem| && m.len <= m.size && Sized(m.mem, m.size)
    ensures m.len == 0 ==> m.size == |m.mem|
  {
  }

  datatype Msg = Msg(mem: seq<byte>, size: nat, pos: nat, len: nat)
  {
    /** A shortened ring is full up to its end. */
    ghost predicate Ok() {
      && Sized(mem, size) && pos < size && len <= size
      && (size < |mem| ==> size <= pos + len) && (len == 0 ==> pos == 0)
    }

    ghost function Contents(): seq<byte>
      requires Ok()
    {
      Get(mem, size, pos, len)
    }
  }

  /** io.c:864-874 for iobuf.msg. */
  function AdvanceMsg(m: Msg, n: nat): Msg
    requires n <= m.len
  {
    var m1 := if m.pos + n == m.size then m.(pos := 0, size := Restored(m.size)) else m.(pos := m.pos + n);
    if m.len == n then m1.(len := 0, pos := 0, size := Restored(m1.size)) else m1.(len := m.len - n)
  }

  lemma AdvanceMsgOk(m: Msg, n: nat)
    requires m.Ok() && n <= m.len && m.pos + n <= m.size
    ensures var m' := AdvanceMsg(m, n);
      m'.Ok() && Get(m.mem, m.size, m.pos, n) == m.Contents()[..n] && m'.Contents() == m.Contents()[n..]
  {
    hide Get, Restored;
    RestoredSize(m.mem, m.size);
    RestoredSize(m.mem, |m.mem|);
    var m' := AdvanceMsg(m, n);
    GetLen(m.mem, m.size, m.pos, m.len);
    GetLen(m'.mem, m'.size, m'.pos, m'.len);
    SplitFront(m.mem, m.size, m.pos, m.len, n);
    Shifted(m.mem, m.size, m.pos, m.len, n, if m.pos + n == m.size then |m.mem| else m.size);
  }

  /** io.c:1004-1013: where the header goes; the ring is shortened if it would not fit at the end. */
  function Shortened(m: Msg): Msg {
    if m.pos + m.len < m.size && m.pos + m.len + 4 > m.size then m.(size := m.pos + m.len) else m
  }

  /** io.c:1016-1050: room for the header, the possibly split copy of the data, then the header itself. */
  function Post(m: Msg, code: nat, data: seq<byte>): Msg
    requires m.pos < m.size <= |m.mem| && m.len + 4 + |data| <= m.size
    requires At(m.size, m.pos, m.len) + 4 <= |m.mem|
  {
    var mem := Put(m.mem, m.size, m.pos, m.len + 4, data);
    var hdr := At(m.size, m.pos, m.len);
    m.(mem := Copied(mem, hdr, Header(code, |data|)), len := m.len + 4 + |data|)
  }

  lemma PostOk(m: Msg, code: nat, data: seq<byte>)
    requires m.Ok() && m.len + |data| + 7 <= m.size
    ensures var m1 := Shortened(m);
      && m1.pos < m1.size && m1.len + 4 + |data| <= m1.size && At(m1.size, m1.pos, m1.len) + 4 <= m1.size
      && var m' := Post(m1, code, data); m'.Ok() && m'.Contents() == m.Contents() + Frame(code, data).Wire()
  {
    hide Get, Header, Put, Copied;
    var m1, h := Shortened(m), Header(code, |data|);
    var n, k := m1.len + 4 + |data|, m1.len;
    PutReserved(m1.mem, m1.size, m1.pos, k, data);
    var mem := Put(m1.mem, m1.size, m1.pos, k + 4, data);
    GetLen(mem, m1.size, m1.pos, n);
    Poke(mem, m1.size, m1.pos, n, k, h);
    CopiedAt(mem, At(m1.size, m1.pos, k), h);
    if m1.size != m.size {
      Resize(m.mem, m.size, m.pos, m.len, m1.size);
    }
    GetLen(m.mem, m.size, m.pos, m.len);
    var c := m.Contents();
    assert c + h + data == c + (h + data);
  }

  /** Data put behind four reserved bytes leaves what is in front of them. */
  lemma PutReserved(mem: seq<byte>, size: nat, pos: nat, len: nat, data: seq<byte>)
    requires pos < size <= |mem| && len + 4 + |data| <= size
    ensures var mem' := Put(mem, size, pos, len + 4, data);
      && var all := Get(mem', size, pos, len + 4 + |data|);
      && |all| == len + 4 + |data| && all[..len] == Get(mem, size, pos, len) && all[len + 4..] == data
  {
    hide Get, Put;
    PutExtends(mem, size, pos, len + 4, data);
    GetLen(mem, size, pos, len + 4);
    SplitFront(mem, size, pos, len + 4, len);
    var front := Get(mem, size, pos, len + 4);
    assert (front + data)[..len] == front[..len] && (front + data)[len + 4..] == data;
  }

  /** io.c:996-1000: twice the (restored) size; the wrapped part moves behind the old end. */
  function Doubled(m: Msg, more: seq<byte>): Msg
    requires m.pos < m.size <= |m.mem| && |more| == |m.mem| && m.len <= m.size
  {
    var wrapped := if m.pos + m.len > m.size then m.pos + m.len - m.size else 0;
    Msg(Copied(m.mem + more, m.size, m.mem[..wrapped]), 2 * |m.mem|, m.pos, m.len)
  }

  lemma DoubledOk(m: Msg, more: seq<byte>)
    requires m.Ok() && |more| == |m.mem|
    ensures Doubled(m, more).Ok() && Doubled(m, more).Contents() == m.Contents()
  {
    hide Get;
    assert (m.mem + more)[..|m.mem|] == m.mem;
    Double(m.mem, m.size, m.pos, m.len, m.mem + more);
  }
}
