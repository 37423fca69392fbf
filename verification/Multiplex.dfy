/** io.c: everything that goes out over a multiplexed connection. */
module Multiplex {
  import opened Bytes
  import opened Frames
  import opened Ring
  import opened OutBuffers

  /** What is on the wire and in the buffers, against what write_buf and send_msg were given: the wire is a run
      of whole frames up to the one being sent, messages wait while a data frame is being sent, and nothing is
      lost, repeated or reordered. */
  ghost predicate Streams(o: Out, m: Msg, wire: seq<byte>, written: seq<byte>, posted: seq<Frame>,
                          frames: seq<Frame>, queued: seq<Frame>)
    requires o.Ok() && m.Ok()
  {
    && AllOk(frames) && AllOk(queued) && (forall i :: 0 <= i < |queued| ==> queued[i].code != MSG_DATA)
    && DataOf(frames) + o.Pending() == written
    && MsgsOf(frames) + queued == posted
    && if o.ends != 0 then wire + o.Flushing() == Encode(frames) && m.Contents() == Encode(queued)
       else queued == [] && wire + m.Contents() == Encode(frames)
  }

  lemma FrameStarts(o: Out, m: Msg, wire: seq<byte>, written: seq<byte>, posted: seq<Frame>,
                    frames: seq<Frame>, queued: seq<Frame>)
    requires o.Ok() && m.Ok() && o.ends == 0 && 4 < o.len && m.len == 0
    requires Streams(o, m, wire, written, posted, frames, queued)
    ensures o.pos + o.len <= 2 * o.size && StartFrame(o).Ok()
    ensures Streams(StartFrame(o), m, wire, written, posted, frames + [Frame(MSG_DATA, o.Pending())], queued)
  {
    hide Get, StartFrame, Header, Encode, DataOf, MsgsOf;
    StartFrameOk(o);
    var f := Frame(MSG_DATA, o.Pending());
    Join(frames, [f]);
    One(f);
    EmptyRing(m);
    Silence();
    PendingLen(o);
    assert wire + [] == wire;
    assert MsgsOf(frames) + [] == MsgsOf(frames) && DataOf(frames) + o.Pending() + [] == DataOf(frames) + o.Pending();
  }

  lemma EmptyRing(m: Msg)
    requires m.Ok() && m.len == 0
    ensures m.Contents() == []
  {
  }

  lemma Silence()
    ensures Encode([]) == [] && DataOf([]) == [] && MsgsOf([]) == []
  {
  }

  lemma PendingLen(o: Out)
    requires o.Ok()
    ensures |o.Pending()| == o.len - 4 - o.Left()
  {
  }

  lemma DataSent(o: Out, m: Msg, wire: seq<byte>, written: seq<byte>, posted: seq<Frame>,
                 frames: seq<Frame>, queued: seq<Frame>, n: nat)
    requires o.Ok() && m.Ok() && o.ends != 0 && n <= o.Left() && o.pos + n <= o.size
    requires Streams(o, m, wire, written, posted, frames, queued)
    ensures Advance(o, n).Ok()
    ensures var o', wire' := Advance(o, n), wire + Get(o.mem, o.size, o.pos, n);
      if n < o.Left() then Streams(o', m, wire', written, posted, frames, queued)
      else Streams(o', m, wire', written, posted, frames + queued, [])
  {
    hide Get, Encode, DataOf, MsgsOf, Advance;
    AdvanceOk(o, n);
    AdvanceLayout(o, n);
    LeftLen(o);
    var o', w, rest := Advance(o, n), o.Flushing()[..n], o.Flushing()[n..];
    assert o.Flushing() == w + rest && wire + (w + rest) == wire + w + rest;
    LeftLen(o');
    if n == o.Left() {
      Join(frames, queued);
      AllMessages(queued);
      assert rest == [] && wire + w + [] == wire + w;
      assert DataOf(frames) + [] == DataOf(frames);
      assert posted + [] == posted;
    }
  }

  lemma LeftLen(o: Out)
    requires o.Ok()
    ensures |o.Flushing()| == o.Left() && (o.ends == 0 <==> o.Left() == 0)
  {
  }

  lemma MsgSent(o: Out, m: Msg, wire: seq<byte>, written: seq<byte>, posted: seq<Frame>,
                frames: seq<Frame>, queued: seq<Frame>, n: nat)
    requires o.Ok() && m.Ok() && o.ends == 0 && n <= m.len && m.pos + n <= m.size
    requires Streams(o, m, wire, written, posted, frames, queued)
    ensures AdvanceMsg(m, n).Ok()
    ensures Streams(o, AdvanceMsg(m, n), wire + Get(m.mem, m.size, m.pos, n), written, posted, frames, queued)
  {
    hide Get, Encode, DataOf, MsgsOf, AdvanceMsg;
    AdvanceMsgOk(m, n);
    var c := m.Contents();
    MsgLen(m);
    assert c == c[..n] + c[n..] && wire + (c[..n] + c[n..]) == wire + c[..n] + c[n..];
  }

  lemma MsgLen(m: Msg)
    requires m.Ok()
    ensures |m.Contents()| == m.len
  {
  }

  lemma DataWritten(o: Out, m: Msg, wire: seq<byte>, written: seq<byte>, posted: seq<Frame>,
                    frames: seq<Frame>, queued: seq<Frame>, data: seq<byte>)
    requires o.Ok() && m.Ok() && o.len + |data| <= o.size
    requires Streams(o, m, wire, written, posted, frames, queued)
    ensures Append(o, data).Ok() && Streams(Append(o, data), m, wire, written + data, posted, frames, queued)
  {
    hide Get, Encode, DataOf, MsgsOf, Put;
    AppendOk(o, data);
    assert DataOf(frames) + o.Pending() + data == DataOf(frames) + (o.Pending() + data);
  }

  lemma MsgPosted(o: Out, m: Msg, wire: seq<byte>, written: seq<byte>, posted: seq<Frame>,
                  frames: seq<Frame>, queued: seq<Frame>, f: Frame, m': Msg)
    requires o.Ok() && m.Ok() && m'.Ok() && f.Ok() && f.code != MSG_DATA
    requires m'.Contents() == m.Contents() + f.Wire()
    requires Streams(o, m, wire, written, posted, frames, queued)
    ensures if o.ends != 0 then Streams(o, m', wire, written, posted + [f], frames, queued + [f])
            else Streams(o, m', wire, written, posted + [f], frames + [f], queued)
  {
    hide Get, Encode, DataOf, MsgsOf, Frame.Wire;
    One(f);
    if o.ends != 0 {
      Join(queued, [f]);
      assert MsgsOf(frames) + queued + [f] == MsgsOf(frames) + (queued + [f]);
    } else {
      Join(frames, [f]);
      assert wire + m.Contents() + f.Wire() == wire + (m.Contents() + f.Wire());
      assert DataOf(frames) + [] == DataOf(frames);
      assert MsgsOf(frames) + [f] + [] == MsgsOf(frames) + [] + [f];
    }
  }

  lemma StartOk(o: Out, m: Msg)
    requires o.size == |o.mem| && o.pos == 0 && o.len == 4 && o.hdr == 0 && o.ends == 0
    requires m.size == |m.mem| && m.pos == 0 && m.len == 0
    requires 1024 <= |o.mem| < 0x100_0000 && |o.mem| % 256 == 0 && 1024 <= |m.mem| && |m.mem| % 256 == 0
    ensures o.Ok() && m.Ok() && Streams(o, m, [], [], [], [], [])
  {
  }

  lemma CopiedNothing(mem: seq<byte>, at: nat)
    requires at <= |mem|
    ensures Copied(mem, at, []) == mem
  {
  }

  lemma CopiedFront(mem: seq<byte>, data: seq<byte>)
    requires |data| <= |mem|
    ensures Copied(mem, 0, data) == data + Copied(mem, 0, data)[|data|..]
  {
  }

  method Memcpy(dst: array<byte>, at: nat, data: seq<byte>)
    requires at + |data| <= dst.Length
    modifies dst
    ensures dst[..] == Copied(old(dst[..]), at, data)
  {
    forall i | 0 <= i < |data| {
      dst[at + i] := data[i];
    }
  }

  /** The copy behind the bytes present, in two parts if it runs over the physical end. */
  method SplitCopy(dst: array<byte>, size: nat, pos: nat, len: nat, data: seq<byte>)
    requires pos < size <= dst.Length && len + |data| <= size
    modifies dst
    ensures dst[..] == Put(old(dst[..]), size, pos, len, data)
  {
    hide Copied;
    var tail := pos + len;
    if tail >= size {
      tail := tail - size;
    }
    var siz := size - tail;
    if tail >= pos && siz < |data| {
      Memcpy(dst, tail, data[..siz]);
      Memcpy(dst, 0, data[siz..]);
    } else {
      Memcpy(dst, tail, data);
    }
  }

  /** The scalars beside the two buffers, and the history of the connection. */
  datatype OutVars = OutVars(size: nat, pos: nat, len: nat, hdr: nat, ends: nat)
  {
    /** How much data waits behind the frame in progress. */
    ghost function Waiting(): int {
      len - 4 - if ends == 0 then 0 else ends - pos
    }
  }
  datatype MsgVars = MsgVars(size: nat, pos: nat, len: nat)
  datatype History = History(written: seq<byte>, posted: seq<Frame>, frames: seq<Frame>, queued: seq<Frame>)

  function OutOf(mem: seq<byte>, v: OutVars): Out {
    Out(mem, v.size, v.pos, v.len, v.hdr, v.ends)
  }

  function MsgOf(mem: seq<byte>, v: MsgVars): Msg {
    Msg(mem, v.size, v.pos, v.len)
  }

  ghost predicate Consistent(o: Out, m: Msg, wire: seq<byte>, h: History) {
    o.Ok() && m.Ok() && Streams(o, m, wire, h.written, h.posted, h.frames, h.queued)
  }

  lemma Rehoused(o: Out, m: Msg, m': Msg, wire: seq<byte>, h: History)
    requires Consistent(o, m, wire, h) && m'.Ok() && m'.Contents() == m.Contents()
    ensures Consistent(o, m', wire, h)
  {
  }

  datatype FlushKind = Full | Normal | Messages

  lemma Bounds(o: Out, m: Msg, wire: seq<byte>, h: History)
    requires Consistent(o, m, wire, h)
    ensures o.pos < o.size <= |o.mem| < TWO64 && 1000 < o.size && 0 <= o.Left() && o.Left() + 4 <= o.len <= o.size + 4
    ensures (o.size < |o.mem| ==> o.ends == o.size) && (o.ends != 0 ==> 0 < o.Left())
    ensures o.ends == 0 ==> o.len <= o.size == |o.mem|
    ensures m.len <= m.size <= |m.mem|
  {
    hide Streams;
  }

  function FreshOut(): Out {
    Out(Zeros(1024), 1024, 0, 4, 0, 0)
  }

  /** A ring of 1024 bytes with 1018 bytes of data: the frame ends where no header fits, the ring is shortened by two, and
      the two bytes that are written next outlast a full flush. */
  lemma FlushExample()
    ensures var o := Append(FreshOut(), Zeros(1018)); o.pos + o.len <= 2 * o.size && 10 <= StartFrame(o).len
    ensures var o := Append(Advance(StartFrame(Append(FreshOut(), Zeros(1018))), 10), [7, 7]);
      o.Ok() && o.size == 1022 == o.ends && |o.mem| == 1024 && o.Pending() == [7, 7]
  {
    hide Get, Put, Header, Copied, Restored, Zeros;
    var o1 := Append(FreshOut(), Zeros(1018));
    AppendOk(FreshOut(), Zeros(1018));
    StartFrameOk(o1);
    var o2 := StartFrame(o1);
    CopiedAt(o1.mem, o1.hdr, Header(MSG_DATA, o1.len - 4));
    AdvanceOk(o2, 10);
    var o3 := Advance(o2, 10);
    PendingLen(o2);
    PendingLen(o3);
    AppendOk(o3, [7, 7]);
    assert o3.Pending() == [];
    assert [] + [7, 7] == [7, 7];
  }

  /** A ring filled to the last byte: with the next header its contents are larger than it is, until four bytes are out. */
  lemma OverfullExample()
    ensures var o := Append(FreshOut(), Zeros(1020));
      o.pos + o.len <= 2 * o.size && StartFrame(o).Ok() && StartFrame(o).len > StartFrame(o).size + 1
  {
    hide Get, Put, Header, Copied, Zeros;
    AppendOk(FreshOut(), Zeros(1020));
    StartFrameOk(Append(FreshOut(), Zeros(1020)));
  }

  /** The wire and the scalars at some moment. */
  datatype Shot = Shot(wire: seq<byte>, o: OutVars, m: MsgVars)
  {
    /** Room for more, without writing first. */
    ghost predicate Room(needed: nat, msgRoom: bool) {
      if msgRoom then m.len + needed <= m.size else o.len + needed <= o.size
    }

    /** The output ring of `full` bytes is shortened, all of it is wanted, and no more waits than it is short. */
    ghost predicate Stops(needed: nat, msgRoom: bool, full: nat) {
      !msgRoom && needed == o.size - 4 && o.size < full && o.ends != 0 && o.Waiting() <= full - o.size
    }
  }

  /** What one turn may change: a frame in progress goes first, then messages. */
  ghost predicate Turned(a: Shot, b: Shot, full: nat) {
    && a.wire < b.wire && a.m.size <= b.m.size
    && (a.o.ends != 0 ==> b.o.Waiting() == a.o.Waiting() && b.o.len < a.o.len && b.m == a.m)
    && (a.o.ends != 0 && a.o.size < full && b.o.ends != 0 ==> b.o.size == a.o.size)
    && (a.o.ends == 0 && a.m.len != 0 ==> b.o == a.o)
  }

  /** What turns until there is room have changed: nothing if there was room, and in a shortened ring that is wanted empty
      they end with the frame in progress if what waits is no more than the ring is short. */
  ghost predicate Done(a: Shot, b: Shot, needed: nat, msgRoom: bool, full: nat) {
    && (b == a || (a.wire < b.wire && !a.Room(needed, msgRoom)))
    && a.m.size <= b.m.size
    && (msgRoom ==> b.o.len <= a.o.len && (a.o.ends == 0 ==> b.o == a.o))
    && (a.Stops(needed, msgRoom, full) ==>
          b.o.Waiting() == a.o.Waiting() && if b.o.ends != 0 then b.o.size == a.o.size else b.Room(needed, msgRoom))
  }

  lemma NotYet(a: Shot, needed: nat, msgRoom: bool, full: nat)
    ensures Done(a, a, needed, msgRoom, full)
  {
  }

  lemma OneTurn(a: Shot, b: Shot, c: Shot, needed: nat, msgRoom: bool, full: nat)
    requires Done(a, b, needed, msgRoom, full) && !b.Room(needed, msgRoom) && Turned(b, c, full)
    requires msgRoom && b.o.ends == 0 ==> b.m.len != 0
    requires c.o.ends == 0 ==> c.o.size == full
    ensures Done(a, c, needed, msgRoom, full)
  {
  }

  lemma Emptied(o: Out, m: Msg, wire: seq<byte>, h: History)
    requires Consistent(o, m, wire, h) && o.len == 4 && m.len == 0
    ensures wire == Encode(h.frames) && DataOf(h.frames) == h.written && MsgsOf(h.frames) == h.posted
  {
    hide Get, Encode, DataOf, MsgsOf;
    LeftLen(o);
    PendingLen(o);
    EmptyRing(m);
    assert wire + [] == wire && DataOf(h.frames) + [] == DataOf(h.frames) && MsgsOf(h.frames) + [] == MsgsOf(h.frames);
  }

  /** io.c:864-876: the positions after n bytes of the frame in progress are gone. */
  method AfterWrite(v: OutVars, n: nat, ghost mem: seq<byte>) returns (v': OutVars)
    requires n <= v.len && v.ends != 0 && v.pos + n <= v.ends
    ensures OutOf(mem, v') == Advance(OutOf(mem, v), n) && v'.len == v.len - n
  {
    hide Restored;
    var size, pos, len, hdr, ends := v.size, v.pos + n, v.len - n, v.hdr, v.ends;
    if pos == size {
      if ends != 0 {
        ends := ends - size;
      }
      pos := 0;
      size := Restored(size);
    } else if pos == ends {
      ends := 0;
    }
    if len == 4 {
      pos := 0;
      size := Restored(size);
      hdr := 0;
    }
    v' := OutVars(size, pos, len, hdr, ends);
  }

  method AfterMsgWrite(v: MsgVars, n: nat, ghost mem: seq<byte>) returns (v': MsgVars)
    requires n <= v.len
    ensures MsgOf(mem, v') == AdvanceMsg(MsgOf(mem, v), n) && v'.len == v.len - n
  {
    hide Restored;
    var size, pos, len := v.size, v.pos + n, v.len - n;
    if pos == size {
      pos := 0;
      size := Restored(size);
    }
    if len == 0 {
      pos := 0;
      size := Restored(size);
    }
    v' := MsgVars(size, pos, len);
  }

  /** The iobuf record, as far as output is concerned.  `wire` is what the socket has accepted. */
  class Output {
    const amSender: bool
    var out: array<byte>
    var o: OutVars
    var msg: array<byte>
    var m: MsgVars
    var wire: seq<byte>
    ghost var h: History

    ghost predicate Valid()
      reads this, out, msg
    {
      out != msg && Consistent(OutOf(out[..], o), MsgOf(msg[..], m), wire, h)
    }

    ghost function Now(): Shot
      reads this
    {
      Shot(wire, o, m)
    }

    /** Nothing is left in the buffers: the wire carries all that was ever given. */
    ghost predicate AllSent()
      reads this
    {
      o.len == 4 && m.len == 0 && wire == Encode(h.frames) && DataOf(h.frames) == h.written && MsgsOf(h.frames) == h.posted
    }

    /** Bytes still to be sent, with enough weight on pending data to pay for its header. */
    ghost function Work(): int
      reads this
    {
      var left := if o.ends == 0 then 0 else o.ends - o.pos;
      5 * (o.len - 4 - left) + left + m.len
    }

    /** io.c:1382, 2455-2461: a connection on which multiplexing has just been turned on. */
    constructor (amSender: bool, outBytes: nat, msgBytes: nat)
      requires 1024 <= outBytes < 0x100_0000 && outBytes % 256 == 0
      requires 1024 <= msgBytes && msgBytes % 256 == 0
      ensures Valid() && fresh(out) && fresh(msg) && wire == [] && h.written == [] && h.posted == []
    {
      this.amSender := amSender;
      out, o := new byte[outBytes], OutVars(outBytes, 0, 4, 0, 0);
      msg, m := new byte[msgBytes], MsgVars(msgBytes, 0, 0);
      wire, h := [], History([], [], [], []);
      new;
      StartOk(OutOf(out[..], o), MsgOf(msg[..], m));
    }

    /** io.c:682-708. */
    method BeginFrame()
      requires Valid() && o.ends == 0 && 4 < o.len && m.len == 0
      modifies this`o, this`h, out
      ensures Valid() && o.ends != 0 && h.written == old(h.written) && h.posted == old(h.posted)
      ensures Work() <= old(Work())
    {
      hide Streams, Out.Ok, Msg.Ok, Copied, Header;
      ghost var o0, m0 := OutOf(out[..], o), MsgOf(msg[..], m);
      OutBounds(o0);
      FrameStarts(o0, m0, wire, h.written, h.posted, h.frames, h.queued);
      StartFrameLayout(o0);
      OutBounds(StartFrame(o0));
      var ends := o.pos + o.len;
      Memcpy(out, o.hdr, Header(MSG_DATA, o.len - 4));
      var size, next := o.size, ends;
      if next >= size {
        next := next - size;
      } else if next + 4 > size {
        size, next := next, 0;
      }
      o := OutVars(size, o.pos, o.len + 4, next, ends);
      h := h.(frames := h.frames + [Frame(MSG_DATA, o0.Pending())]);
      assert OutOf(out[..], o) == StartFrame(o0) && MsgOf(msg[..], m) == m0;
    }

    /** io.c:831-876 for the frame in progress: the socket takes n bytes, however many it likes. */
    method WriteOut()
      requires Valid() && o.ends != 0
      modifies this`wire, this`o, this`h
      ensures Valid() && old(wire) < wire && Work() < old(Work())
      ensures h.written == old(h.written) && h.posted == old(h.posted)
      ensures o.Waiting() == old(o).Waiting() && o.len < old(o.len)
      ensures old(o.size) < out.Length && o.ends != 0 ==> o.size == old(o.size)
    {
      hide Streams, Out.Ok, Msg.Ok, Get, Restored, Advance;
      ghost var o0, m0 := OutOf(out[..], o), MsgOf(msg[..], m);
      OutBounds(o0);
      var len := o.ends - o.pos;
      if o.pos + len > o.size {
        len := o.size - o.pos;
      }
      var n: nat :| 1 <= n <= len;
      DataSent(o0, m0, wire, h.written, h.posted, h.frames, h.queued, n);
      AdvanceLayout(o0, n);
      AdvanceShort(o0, n);
      Straight(out[..], o.size, o.pos, n);
      wire := wire + out[o.pos..o.pos + n];
      o := AfterWrite(o, n, out[..]);
      if n == o0.Left() {
        h := h.(frames := h.frames + h.queued, queued := []);
      }
      assert OutOf(out[..], o) == Advance(o0, n) && MsgOf(msg[..], m) == m0;
    }

    /** The same for iobuf.msg. */
    method WriteMsg()
      requires Valid() && o.ends == 0 && m.len != 0
      modifies this`wire, this`m
      ensures Valid() && old(wire) < wire && Work() < old(Work()) && old(m.size) <= m.size
    {
      hide Streams, Out.Ok, Msg.Ok, Get, Restored, AdvanceMsg;
      ghost var o0, m0 := OutOf(out[..], o), MsgOf(msg[..], m);
      MsgBounds(m0);
      var len := if m.pos + m.len > m.size then m.size - m.pos else m.len;
      var n: nat :| 1 <= n <= len;
      MsgSent(o0, m0, wire, h.written, h.posted, h.frames, h.queued, n);
      AdvanceMsgSize(m0, n);
      Straight(msg[..], m.size, m.pos, n);
      wire := wire + msg[m.pos..m.pos + n];
      m := AfterMsgWrite(m, n, msg[..]);
      assert OutOf(out[..], o) == o0 && MsgOf(msg[..], m) == AdvanceMsg(m0, n);
    }

    /** One turn of perform_io's output side (io.c:679-723, 830-877): finish the frame in progress first, then
        all messages, then a new data frame unless only message room is wanted. */
    method Pump(msgRoom: bool)
      requires Valid() && (o.ends != 0 || m.len != 0 || (4 < o.len && !msgRoom))
      modifies this`wire, this`o, this`m, this`h, out
      ensures Valid() && old(wire) < wire && Work() < old(Work())
      ensures h.written == old(h.written) && h.posted == old(h.posted)
      ensures Turned(old(Now()), Now(), out.Length)
    {
      hide Consistent;
      if o.ends != 0 || (m.len == 0 && 4 < o.len && !msgRoom) {
        if o.ends == 0 {
          BeginFrame();
        }
        WriteOut();
      } else {
        WriteMsg();
      }
    }

    /** io.c:593-657 with the loop around it: refuse what can never fit, else write until there is room. */
    method PerformIo(needed: nat, msgRoom: bool) returns (ok: bool)
      requires Valid()
      modifies this`wire, this`o, this`m, this`h, out
      ensures Valid() && old(wire) <= wire && h.written == old(h.written) && h.posted == old(h.posted)
      ensures ok <==> needed <= old(if msgRoom then m.size else o.size - 4)
      ensures ok ==> Now().Room(needed, msgRoom)
      ensures ok ==> Done(old(Now()), Now(), needed, msgRoom, out.Length)
      ensures !ok ==> Now() == old(Now())
    {
      hide Streams, Out.Ok, Msg.Ok, Turned, Done;
      ghost var before, full := Now(), out.Length;
      NotYet(before, needed, msgRoom, full);
      OutBounds(OutOf(out[..], o));
      MsgBounds(MsgOf(msg[..], m));
      if needed > if msgRoom then m.size else o.size - 4 {
        return false;
      }
      while if msgRoom then m.len + needed > m.size else o.len + needed > o.size
        invariant Valid() && old(wire) <= wire && h.written == old(h.written) && h.posted == old(h.posted)
        invariant needed <= if msgRoom then msg.Length else out.Length - 4
        invariant Done(before, Now(), needed, msgRoom, full) && out.Length == full
        invariant 0 <= Work()
        decreases Work()
      {
        OutBounds(OutOf(out[..], o));
        MsgBounds(MsgOf(msg[..], m));
        ghost var turn := Now();
        Pump(msgRoom);
        OutBounds(OutOf(out[..], o));
        OneTurn(before, turn, Now(), needed, msgRoom, full);
      }
      ok := true;
    }

    /** io.c:2255-2284: all of the data is accepted, or none of it. */
    method WriteBuf(data: seq<byte>) returns (ok: bool)
      requires Valid()
      modifies this`wire, this`o, this`m, this`h, out
      ensures Valid() && old(wire) <= wire && h.posted == old(h.posted)
      ensures ok <==> old(o.len) + |data| <= old(o.size) || |data| <= old(o.size) - 4
      ensures h.written == old(h.written) + if ok then data else []
      ensures old(Now().Room(|data|, false)) ==> wire == old(wire) && m == old(m)
    {
      hide Streams, Out.Ok, Msg.Ok, Copied, Put;
      ok := true;
      if o.len + |data| > o.size {
        ok := PerformIo(|data|, false);
        if !ok {
          return;
        }
      }
      ghost var o0, m0 := OutOf(out[..], o), MsgOf(msg[..], m);
      OutBounds(o0);
      DataWritten(o0, m0, wire, h.written, h.posted, h.frames, h.queued, data);
      SplitCopy(out, o.size, o.pos, o.len, data);
      o := o.(len := o.len + |data|);
      h := h.(written := h.written + data);
      assert OutOf(out[..], o) == Append(o0, data) && MsgOf(msg[..], m) == m0;
    }

    /** io.c:965-1058: a message of any kind but MSG_DATA.  A sender waits for room; any other process doubles
        the buffer, once, so that the message must fit what is then free. */
    method SendMsg(code: nat, data: seq<byte>) returns (ok: bool)
      requires Valid() && 0 < code && Frame(code, data).Ok()
      requires !amSender ==> m.len + |data| + 7 <= 2 * msg.Length
      modifies this`wire, this`o, this`m, this`h, this`msg, out, msg
      ensures Valid() && out == old(out) && (msg == old(msg) || fresh(msg))
      ensures old(wire) <= wire && h.written == old(h.written)
      ensures ok <==> !amSender || old(m.len) + |data| + 7 <= old(m.size) || |data| + 7 <= old(m.size)
      ensures h.posted == old(h.posted) + if ok then [Frame(code, data)] else []
      ensures old(Now().Room(|data| + 7, true)) ==> msg == old(msg)
      ensures old(Now().Room(|data| + 7, true)) || !amSender ==> wire == old(wire) && o == old(o)
    {
      hide Streams, Out.Ok, Msg.Ok, Copied, Put, Header, Frame.Ok, Frame.Wire;
      MsgBounds(MsgOf(msg[..], m));
      ok := true;
      if m.len + |data| + 7 > m.size {
        if amSender {
          ok := PerformIo(|data| + 7, true);
          if !ok {
            return;
          }
        } else {
          DoubleMsg();
        }
      }
      PutMsg(code, data);
    }

    /** io_flush, io.c:2136-2147. A full flush sends everything if the buffer has its full size; a buffer that is
        shortened for a header may keep as many bytes as it is short, and does keep what waits if that is no more. A
        normal flush ends the program when the header of a new frame has made the contents larger than the buffer. */
    method Flush(kind: FlushKind) returns (ok: bool)
      requires Valid()
      modifies this`wire, this`o, this`m, this`h, out
      ensures Valid() && old(wire) <= wire && h.written == old(h.written) && h.posted == old(h.posted)
      ensures ok <==> kind != Normal || old(o.len) <= old(o.size) + 1
      ensures ok ==> m.len <= msg.Length - old(m.size)
      ensures kind == Full ==> o.len - 4 <= out.Length - old(o.size)
      ensures kind == Full && old(o).Waiting() <= out.Length - old(o.size) ==> o.len - 4 == old(o).Waiting()
      ensures ok && kind == Normal && old(o.len) > 4 ==> old(wire) < wire
      ensures o.len == 4 && m.len == 0 ==> AllSent()
    {
      hide Consistent, Encode, DataOf, MsgsOf;
      ok := FlushOut(kind);
      if ok {
        FlushMsgs();
      }
      if o.len == 4 && m.len == 0 {
        Emptied(OutOf(out[..], o), MsgOf(msg[..], m), wire, h);
      }
    }

    /** io.c:2138-2144. */
    method FlushOut(kind: FlushKind) returns (ok: bool)
      requires Valid()
      modifies this`wire, this`o, this`m, this`h, out
      ensures Valid() && old(wire) <= wire && h.written == old(h.written) && h.posted == old(h.posted)
      ensures ok <==> kind != Normal || old(o.len) <= old(o.size) + 1
      ensures old(m.size) <= m.size
      ensures kind == Full ==> o.len - 4 <= out.Length - old(o.size)
      ensures kind == Full && old(o).Waiting() <= out.Length - old(o.size) ==> o.len - 4 == old(o).Waiting() && o.ends == 0
      ensures ok && kind == Normal && old(o.len) > 4 ==> old(wire) < wire
    {
      hide Consistent;
      Bounds(OutOf(out[..], o), MsgOf(msg[..], m), wire, h);
      ok := true;
      if o.len > 4 {
        if kind == Full {
          ok := PerformIo(o.size - 4, false);
        } else if kind == Normal {
          ok := PerformIo(if o.len <= o.size + 1 then o.size + 1 - o.len else TWO64 - (o.len - o.size - 1), false);
        }
      }
      Bounds(OutOf(out[..], o), MsgOf(msg[..], m), wire, h);
    }

    /** io.c:2145-2146. */
    method FlushMsgs()
      requires Valid()
      modifies this`wire, this`o, this`m, this`h, out
      ensures Valid() && old(wire) <= wire && h.written == old(h.written) && h.posted == old(h.posted)
      ensures m.len <= msg.Length - old(m.size) && o.len <= old(o.len) && (old(o.ends) == 0 ==> o == old(o))
    {
      hide Consistent;
      Bounds(OutOf(out[..], o), MsgOf(msg[..], m), wire, h);
      if m.len != 0 {
        var ok := PerformIo(m.size, true);
        Bounds(OutOf(out[..], o), MsgOf(msg[..], m), wire, h);
      }
    }

    /** io.c:1004-1050. */
    method PutMsg(code: nat, data: seq<byte>)
      requires Valid() && 0 < code && Frame(code, data).Ok() && m.len + |data| + 7 <= m.size
      modifies this`m, this`h, msg
      ensures Valid() && h.written == old(h.written) && h.posted == old(h.posted) + [Frame(code, data)]
    {
      hide Streams, Out.Ok, Msg.Ok, Copied, Put, Header, Frame.Ok, Frame.Wire;
      ghost var o0, m0, f := OutOf(out[..], o), MsgOf(msg[..], m), Frame(code, data);
      MsgBounds(m0);
      PostOk(m0, code, data);
      MsgPosted(o0, m0, wire, h.written, h.posted, h.frames, h.queued, f, Post(Shortened(m0), code, data));
      var size, pos := m.size, m.pos + m.len;
      if pos >= size {
        pos := pos - size;
      } else if pos + 4 > size {
        size, pos := pos, 0;
      }
      assert pos == At(size, m.pos, m.len) && Shortened(m0) == m0.(size := size);
      SplitCopy(msg, size, m.pos, m.len + 4, data);
      Memcpy(msg, pos, Header(code, |data|));
      m := MsgVars(size, m.pos, m.len + 4 + |data|);
      h := if o.ends != 0 then h.(posted := h.posted + [f], queued := h.queued + [f])
           else h.(posted := h.posted + [f], frames := h.frames + [f]);
      assert OutOf(out[..], o) == o0 && MsgOf(msg[..], m) == Post(Shortened(m0), code, data);
    }

    /** io.c:996-1000. */
    method DoubleMsg()
      requires Valid()
      modifies this`m, this`msg
      ensures Valid() && fresh(msg) && msg.Length == 2 * old(msg.Length) == m.size && m.len == old(m.len)
    {
      hide Streams, Out.Ok, Msg.Ok, Copied, Restored;
      ghost var o0, m0 := OutOf(out[..], o), MsgOf(msg[..], m);
      MsgBounds(m0);
      RestoredSize(m0.mem, m0.size);
      var oldSize := m.size;
      var size := Restored(m.size) * 2;
      var grown: array<byte> := new byte[size];
      ghost var was := grown[..];
      Memcpy(grown, 0, msg[..]);
      ghost var more := grown[msg.Length..];
      assert grown[..] == msg[..] + more by { CopiedFront(was, msg[..]); }
      if m.pos + m.len > oldSize {
        var wrapped := m.pos + m.len - oldSize;
        assert grown[..wrapped] == m0.mem[..wrapped];
        Memcpy(grown, oldSize, grown[..wrapped]);
      } else {
        assert m0.mem[..0] == [];
        CopiedNothing(grown[..], oldSize);
      }
      DoubledOk(m0, more);
      assert grown[..] == Doubled(m0, more).mem;
      Rehoused(o0, m0, Doubled(m0, more), wire, h);
      msg := grown;
      m := m.(size := size);
      assert MsgOf(msg[..], m) == Doubled(m0, more) && OutOf(out[..], o) == o0;
    }
  }
}
