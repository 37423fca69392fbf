/** io.c: everything that comes in over a multiplexed connection, and the two ends together. */
module Demultiplex {
  import opened Bytes
  import opened Codec
  import opened Frames
  import opened Ring
  import opened OutBuffers
  import opened Multiplex

  /** The scalars of iobuf.in, and raw_input_ends_before (ends, 0 between data frames). */
  datatype InVars = InVars(pos: nat, len: nat, ends: nat)
  {
    predicate Ok(size: nat) {
      pos < size && len <= size && (ends == 0 || pos < ends)
    }

    /** Unread data bytes of the current data frame, in the buffer or still to come. */
    function Left(): int {
      if ends == 0 then 0 else ends - pos
    }
  }

  /** What has come from the socket, how much of it is consumed, and what it meant: the frames read completely,
      the part read of a data frame, and bytes of a header or message not yet complete. */
  datatype InHistory = InHistory(received: seq<byte>, whole: seq<Frame>, part: seq<byte>, extra: seq<byte>)

  ghost function Consumed(v: InVars, h: InHistory): seq<byte>
    requires v.ends == 0 || v.pos < v.ends
  {
    Encode(h.whole) + (if v.ends == 0 then [] else Header(MSG_DATA, |h.part| + v.Left()) + h.part) + h.extra
  }

  ghost predicate Tracked(mem: seq<byte>, v: InVars, h: InHistory) {
    && v.Ok(|mem|)
    && AllOk(h.whole) && |h.part| + v.Left() < 0x100_0000 && (v.ends == 0 ==> h.part == [])
    && h.received == Consumed(v, h) + Get(mem, |mem|, v.pos, v.len)
  }

  /** io.c:571-575. */
  function Rewound(v: InVars): InVars
    requires v.ends == 0 || v.pos < v.ends
  {
    if v.len == 0 && v.pos != 0 then InVars(0, 0, if v.ends == 0 then 0 else v.ends - v.pos) else v
  }

  /** io.c:906-916. */
  function Taken(v: InVars, size: nat, n: nat): InVars
    requires n <= v.len <= size && v.pos < size && (v.ends == 0 || v.pos + n <= v.ends)
  {
    var pos, ends := v.pos + n, if v.pos + n == v.ends then 0 else v.ends;
    if pos >= size then InVars(pos - size, v.len - n, if ends == 0 then 0 else ends - size)
    else InVars(pos, v.len - n, ends)
  }

  /** Taking n bytes moves them from the buffer to the consumed side, and counts them against the data frame. */
  lemma TakenOk(mem: seq<byte>, v: InVars, n: nat)
    requires v.Ok(|mem|) && n <= v.len && (v.ends == 0 || n <= v.Left())
    ensures var v' := Taken(v, |mem|, n);
      && v'.Ok(|mem|) && v'.len == v.len - n && v'.Left() == (if v.ends == 0 then 0 else v.Left() - n)
      && (v'.ends == 0 <==> v'.Left() == 0)
      && Get(mem, |mem|, v.pos, v.len) == Get(mem, |mem|, v.pos, n) + Get(mem, |mem|, v'.pos, v'.len)
  {
  }

  /** io.c:921-931: how raw_read_buf finds the bytes after perform_io has moved the position. */
  lemma CopyOut(mem: seq<byte>, before: nat, v: InVars, n: nat)
    requires v.Ok(|mem|) && n <= v.len && (v.ends == 0 || n <= v.Left())
    requires before == v.pos || v.pos == 0
    ensures var pos := Taken(v, |mem|, n).pos;
      Get(mem, |mem|, v.pos, n) ==
      if pos <= before && n != 0 then mem[v.pos..v.pos + (n - pos)] + mem[..pos] else mem[v.pos..v.pos + n]
  {
  }

  /** The bytes read(2) delivers land behind those present. */
  lemma ReceivedOk(mem: seq<byte>, v: InVars, h: InHistory, data: seq<byte>)
    requires Tracked(mem, v, h) && v.len + |data| <= |mem|
    ensures Tracked(Put(mem, |mem|, v.pos, v.len, data), v.(len := v.len + |data|),
                    h.(received := h.received + data))
  {
    hide Put, Get, Encode, Header;
    PutExtends(mem, |mem|, v.pos, v.len, data);
    var v' := v.(len := v.len + |data|);
    assert Consumed(v', h) == Consumed(v, h);
    Associative(Consumed(v, h), Get(mem, |mem|, v.pos, v.len), data);
  }

  lemma RewoundOk(mem: seq<byte>, v: InVars, h: InHistory)
    requires Tracked(mem, v, h)
    ensures Tracked(mem, Rewound(v), h) && (Rewound(v).pos == v.pos || Rewound(v).pos == 0)
    ensures Rewound(v).Left() == v.Left()
  {
    hide Encode, Header;
    assert Consumed(Rewound(v), h) == Consumed(v, h);
  }

  /** Data bytes taken: the part read of the frame grows, and the frame is whole when nothing is left. */
  lemma DataTaken(mem: seq<byte>, v: InVars, h: InHistory, n: nat)
    requires Tracked(mem, v, h) && h.extra == [] && v.ends != 0 && n <= v.len && n <= v.Left()
    ensures var data, v' := Get(mem, |mem|, v.pos, n), Taken(v, |mem|, n);
      var h' := if v'.ends == 0 then h.(whole := h.whole + [Frame(MSG_DATA, h.part + data)], part := [])
                else h.(part := h.part + data);
      && Tracked(mem, v', h') && h'.received == h.received && h'.extra == []
      && DataOf(h'.whole) + h'.part == DataOf(h.whole) + h.part + data && MsgsOf(h'.whole) == MsgsOf(h.whole)
  {
    hide Encode, Header, DataOf, MsgsOf, Get, Taken;
    TakenOk(mem, v, n);
    var data, v' := Get(mem, |mem|, v.pos, n), Taken(v, |mem|, n);
    GetLen(mem, |mem|, v.pos, n);
    var f := Frame(MSG_DATA, h.part + data);
    Join(h.whole, [f]);
    One(f);
    var e, hd, rest := Encode(h.whole), Header(MSG_DATA, |h.part| + v.Left()), Get(mem, |mem|, v'.pos, v'.len);
    assert h.received == e + (hd + (h.part + data)) + [] + rest;
    assert MsgsOf(h.whole) + [] == MsgsOf(h.whole);
    assert DataOf(h.whole) + (h.part + data) + [] == DataOf(h.whole) + h.part + data;
  }

  /** Header or message bytes taken: they stay unaccounted for until the frame is complete. */
  lemma ExtraTaken(mem: seq<byte>, v: InVars, h: InHistory, n: nat)
    requires Tracked(mem, v, h) && v.ends == 0 && n <= v.len
    ensures var v' := Taken(v, |mem|, n);
      v'.ends == 0 && Tracked(mem, v', h.(extra := h.extra + Get(mem, |mem|, v.pos, n)))
  {
    hide Encode, Header, Get, Taken;
    TakenOk(mem, v, n);
    var data, v' := Get(mem, |mem|, v.pos, n), Taken(v, |mem|, n);
    assert h.received == Encode(h.whole) + [] + (h.extra + data) + Get(mem, |mem|, v'.pos, v'.len);
  }

  /** A complete header: of a data frame, or of a message whose payload follows in `extra`. */
  lemma HeaderDone(mem: seq<byte>, v: InVars, h: InHistory, n: nat)
    requires Tracked(mem, v, h) && v.ends == 0 && h.extra == Header(MSG_DATA, n) && 0 < n < 0x100_0000
    ensures Tracked(mem, v.(ends := v.pos + n), h.(extra := []))
  {
    hide Encode, Header, Get;
    var e, hd := Encode(h.whole), Header(MSG_DATA, n);
    assert e + [] + hd == e + (hd + []) + [];
  }

  lemma FrameDone(mem: seq<byte>, v: InVars, h: InHistory, f: Frame)
    requires Tracked(mem, v, h) && v.ends == 0 && f.Ok() && h.extra == f.Wire()
    ensures var h' := h.(whole := h.whole + [f], extra := []);
      && Tracked(mem, v, h')
      && DataOf(h'.whole) == DataOf(h.whole) + f.Data() && MsgsOf(h'.whole) == MsgsOf(h.whole) + f.Msgs()
  {
    hide Encode, Get, DataOf, MsgsOf, Frame.Wire, Frame.Data, Frame.Msgs, Frame.Ok;
    Join(h.whole, [f]);
    One(f);
    assert Encode(h.whole) + [] + f.Wire() == Encode(h.whole) + f.Wire() + [] + [];
  }

  /** What has been understood is what was framed, as far as it goes. */
  lemma Understood(mem: seq<byte>, v: InVars, h: InHistory, frames: seq<Frame>)
    requires Tracked(mem, v, h) && AllOk(frames) && h.received <= Encode(frames)
    ensures DataOf(h.whole) + h.part <= DataOf(frames) && MsgsOf(h.whole) <= MsgsOf(frames)
  {
    hide Encode, Header, DataOf, MsgsOf, Get;
    var e := Encode(h.whole);
    if v.ends == 0 {
      assert e <= h.received;
      PrefixDecode(h.whole, frames);
    } else {
      var n := |h.part| + v.Left();
      assert e + Header(MSG_DATA, n) + h.part <= h.received by {
        assert e + (Header(MSG_DATA, n) + h.part) == e + Header(MSG_DATA, n) + h.part;
      }
      PartialDecode(h.whole, n, h.part, frames);
    }
    ReadIsPrefix(h.whole, h.part, frames);
  }

  /** Where a reader stands in a stream of whole frames: between two of them, or inside a data frame. */
  lemma Position(mem: seq<byte>, v: InVars, h: InHistory, socket: seq<byte>, frames: seq<Frame>)
    requires Tracked(mem, v, h) && h.extra == [] && AllOk(frames) && h.received + socket == Encode(frames)
    ensures h.whole <= frames
    ensures v.ends == 0 ==> v.len + |socket| == |Encode(frames[|h.whole|..])|
    ensures v.ends != 0 ==> |h.whole| < |frames| && v.Left() <= v.len + |socket|
    ensures v.ends != 0 ==>
      var f := frames[|h.whole|];
      f.code == MSG_DATA && |f.payload| == |h.part| + v.Left()
  {
    hide Encode, Header, Get;
    var k, rest := |h.whole|, Get(mem, |mem|, v.pos, v.len) + socket;
    GetLen(mem, |mem|, v.pos, v.len);
    var e := Encode(h.whole);
    assert e <= Encode(frames);
    PrefixDecode(h.whole, frames);
    assert frames == h.whole + frames[k..];
    JoinWire(h.whole, frames[k..]);
    if v.ends == 0 {
      assert e + rest == h.received + socket;
    } else {
      var n := |h.part| + v.Left();
      var hd := Header(MSG_DATA, n);
      assert e + (hd + (h.part + rest)) == h.received + socket;
      SamePayload(e, hd + (h.part + rest), e, Encode(frames[k..]));
      SameHead(MSG_DATA, n, h.part + rest, frames[k..]);
      Unfold(frames[k..]);
      assert |e + (hd + (h.part + rest))| == |e| + |hd| + |h.part| + |rest|;
      HeaderLen(MSG_DATA, n);
      HeaderLen(frames[k].code, |frames[k].payload|);
    }
  }

  lemma HeaderLen(code: nat, n: nat)
    ensures |Header(code, n)| == 4
  {
  }

  /** The four bytes taken between two frames of the stream are the next one's header. */
  lemma NextHeader(mem: seq<byte>, v: InVars, h: InHistory, socket: seq<byte>, frames: seq<Frame>)
    requires Tracked(mem, v, h) && |h.extra| == 4 && v.ends == 0
    requires AllOk(frames) && h.received + socket == Encode(frames)
    ensures h.whole <= frames && |h.whole| < |frames|
    ensures var f := frames[|h.whole|];
      && TagCode(Word(h.extra)) == f.code && TagLen(Word(h.extra)) == |f.payload|
      && f.code + MPLEX_BASE < 0x80 && |f.payload| <= v.len + |socket|
  {
    hide Encode, Header, Get, Word, TagCode, TagLen;
    var k, rest := |h.whole|, Get(mem, |mem|, v.pos, v.len) + socket;
    GetLen(mem, |mem|, v.pos, v.len);
    var e := Encode(h.whole);
    assert e <= Encode(frames);
    PrefixDecode(h.whole, frames);
    assert frames == h.whole + frames[k..];
    JoinWire(h.whole, frames[k..]);
    assert e + (h.extra + rest) == h.received + socket;
    SamePayload(e, h.extra + rest, e, Encode(frames[k..]));
    assert frames[k..] != [] by { Nothing(); }
    var f := frames[k];
    Unfold(frames[k..]);
    HeaderLen(f.code, |f.payload|);
    SamePayload(h.extra, rest, Header(f.code, |f.payload|), f.payload + Encode(frames[k + 1..]));
    assert |h.extra + rest| == |Encode(frames[k..])|;
    assert f.Ok();
    HeaderWord(f.code, |f.payload|);
  }

  /** Between frames, four more bytes come exactly when another frame does. */
  lemma Upcoming(frames: seq<Frame>, k: nat)
    requires k <= |frames|
    ensures 4 <= |Encode(frames[k..])| <==> k < |frames|
  {
    hide Header;
    if k < |frames| {
      Unfold(frames[k..]);
      HeaderLen(frames[k].code, |frames[k].payload|);
    }
  }

  /** How much data is still owed to a reader that stands in the stream. */
  lemma Owed(whole: seq<Frame>, part: seq<byte>, left: nat, frames: seq<Frame>)
    requires whole <= frames
    requires left > 0 ==>
      |whole| < |frames| && frames[|whole|].code == MSG_DATA && |frames[|whole|].payload| == |part| + left
    ensures left > 0 ==> |DataOf(whole) + part| + left <= |DataOf(frames)|
    ensures left == 0 && part == [] && whole == frames ==> DataOf(whole) + part == DataOf(frames)
  {
    hide Encode;
    if left > 0 {
      assert frames == whole + frames[|whole|..];
      JoinData(whole, frames[|whole|..]);
    }
  }

  lemma {:induction false} LEOfWord(b: seq<byte>)
    ensures LE(Word(b), |b|) == b
  {
    if b != [] {
      LEOfWord(b[1..]);
      assert Word(b) % 256 == b[0] && Word(b) / 256 == Word(b[1..]);
      assert b == [b[0]] + b[1..];
    }
  }

  /** The four bytes of a header are the header of the tag they spell. */
  lemma TagBytes(b: seq<byte>)
    requires |b| == 4 && TagCode(Word(b)) >= 0
    ensures b == Header(TagCode(Word(b)), TagLen(Word(b)))
  {
    LEOfWord(b);
  }

  /** One more frame, without a payload or with one below the limit. */
  ghost predicate Grown(was: seq<Frame>, now: seq<Frame>, limit: nat) {
    |now| == |was| + 1 && now[..|was|] == was && (now[|was|].payload == [] || |now[|was|].payload| < limit)
  }

  /** The iobuf record, as far as input is concerned.  `socket` is what read(2) can still return. */
  class Input {
    const limit: nat
    var buf: array<byte>
    var v: InVars
    var socket: seq<byte>
    ghost var h: InHistory

    ghost predicate Sound()
      reads this, buf
    {
      8 <= buf.Length && Tracked(buf[..], v, h)
    }

    /** Between frames, or inside a data frame. */
    ghost predicate Valid()
      reads this, buf
    {
      Sound() && h.extra == []
    }

    ghost function Delivered(): seq<byte>
      reads this
    {
      DataOf(h.whole) + h.part
    }

    ghost function Messages(): seq<Frame>
      reads this
    {
      MsgsOf(h.whole)
    }

    function Remaining(): nat
      reads this
    {
      v.len + |socket|
    }

    /** The bytes received and those to come are whole frames, and the messages among them are ones that
        read_a_msg accepts. */
    ghost predicate Coming(frames: seq<Frame>)
      reads this
    {
      && h.received + socket == Encode(frames) && AllOk(frames)
      && forall f :: f in frames ==> f.code == MSG_DATA || (|f.payload| < limit && |f.payload| <= buf.Length)
    }

    constructor (size: nat, limit: nat)
      requires 8 <= size
      ensures Valid() && fresh(buf) && h.received == [] && socket == [] && Delivered() == [] && Messages() == []
    {
      this.limit := limit;
      buf, v, socket, h := new byte[size], InVars(0, 0, 0), [], InHistory([], [], [], []);
    }

    /** io.c:781-823: read(2) returns n bytes, however many it likes. */
    method ReadSome()
      requires Sound() && v.len < buf.Length && socket != []
      modifies this`v, this`socket, this`h, buf
      ensures Sound() && v == old(v).(len := v.len) && old(v.len) < v.len && Remaining() == old(Remaining())
      ensures h == old(h).(received := h.received) && h.received + socket == old(h.received + socket)
    {
      hide Tracked, Get, Copied;
      TrackedBounds(buf[..], v, h);
      var pos, room := v.pos + v.len, 0;
      if pos >= buf.Length {
        pos, room := pos - buf.Length, buf.Length - v.len;
      } else {
        room := buf.Length - pos;
      }
      var n: nat :| 1 <= n <= room && n <= |socket|;
      var data := socket[..n];
      assert socket == data + socket[n..];
      ReceivedOk(buf[..], v, h, data);
      Memcpy(buf, pos, data);
      v, socket := v.(len := v.len + n), socket[n..];
      h := h.(received := h.received + data);
    }

    /** perform_io with PIO_NEED_INPUT (io.c:571-585, 640-657). */
    method Fill(needed: nat) returns (ok: bool)
      requires Sound()
      modifies this`v, this`socket, this`h, buf
      ensures Sound() && v.Left() == old(v.Left()) && (v.ends == 0 <==> old(v.ends) == 0)
      ensures (v.pos == old(v.pos) || v.pos == 0) && Remaining() == old(Remaining())
      ensures h == old(h).(received := h.received) && h.received + socket == old(h.received + socket)
      ensures ok <==> needed <= buf.Length && needed <= Remaining()
      ensures ok ==> needed <= v.len
    {
      hide Tracked;
      TrackedBounds(buf[..], v, h);
      RewoundOk(buf[..], v, h);
      v := Rewound(v);
      TrackedBounds(buf[..], v, h);
      if buf.Length < needed {
        return false;
      }
      while v.len < needed
        invariant Sound() && v.Left() == old(v.Left()) && (v.ends == 0 <==> old(v.ends) == 0)
        invariant (v.pos == old(v.pos) || v.pos == 0) && Remaining() == old(Remaining())
        invariant h == old(h).(received := h.received) && h.received + socket == old(h.received + socket)
        decreases |socket|
      {
        if socket == [] {
          return false;
        }
        ReadSome();
      }
      ok := true;
    }

    /** io.c:921-931: data of the current frame, or header and message bytes between data frames. */
    method RawReadBuf(len: nat) returns (ok: bool, data: seq<byte>)
      requires Sound() && (v.ends != 0 ==> h.extra == [] && len <= v.Left())
      modifies this`v, this`socket, this`h, buf
      ensures Sound() && h.received + socket == old(h.received + socket)
      ensures !ok ==> data == [] && h == old(h).(received := h.received) && (v.ends == 0 <==> old(v.ends) == 0)
      ensures ok <==> len <= buf.Length && len <= old(Remaining())
      ensures ok ==> |data| == len && Remaining() == old(Remaining()) - len
      ensures ok && old(v.ends) == 0 ==>
        v.ends == 0 && h == old(h).(received := h.received, extra := old(h.extra) + data)
      ensures ok && old(v.ends) != 0 ==>
        h.extra == [] && Delivered() == old(Delivered()) + data && Messages() == old(Messages())
    {
      hide Tracked, Get, Taken, DataOf, MsgsOf;
      data := [];
      var before := v.pos;
      ok := Fill(len);
      if !ok {
        return;
      }
      TrackedBounds(buf[..], v, h);
      var v' := Consume(v, buf.Length, len);
      data := CopyBytes(buf, before, v, v'.pos, len);
      TakenOk(buf[..], v, len);
      if v.ends == 0 {
        ExtraTaken(buf[..], v, h, len);
        h := h.(extra := h.extra + data);
      } else {
        DataTaken(buf[..], v, h, len);
        h := if v'.ends == 0 then h.(whole := h.whole + [Frame(MSG_DATA, h.part + data)], part := [])
             else h.(part := h.part + data);
      }
      v := v';
    }

    /** io.c:933-941: a header word, straight from the buffer unless it runs over the physical end. */
    method RawReadInt() returns (ok: bool, tag: nat)
      requires Valid() && v.ends == 0
      modifies this`v, this`socket, this`h, buf
      ensures Sound() && v.ends == 0 && h.received + socket == old(h.received + socket)
      ensures ok <==> 4 <= old(Remaining())
      ensures !ok ==> h == old(h).(received := h.received)
      ensures ok ==> |h.extra| == 4 && tag == Word(h.extra) && h == old(h).(received := h.received, extra := h.extra)
      ensures ok ==> Remaining() == old(Remaining()) - 4
    {
      hide Tracked, Get, Taken, DataOf, MsgsOf;
      tag := 0;
      TrackedBounds(buf[..], v, h);
      if buf.Length - v.pos >= 4 {
        ok := Fill(4);
        if !ok {
          return;
        }
        TrackedBounds(buf[..], v, h);
        TakenOk(buf[..], v, 4);
        ExtraTaken(buf[..], v, h, 4);
        Straight(buf[..], buf.Length, v.pos, 4);
        var data := buf[v.pos..v.pos + 4];
        tag := Word(data);
        assert h.extra + data == data;
        h := h.(extra := h.extra + data);
        v := Consume(v, buf.Length, 4);
      } else {
        var data;
        ok, data := RawReadBuf(4);
        if ok {
          tag := Word(data);
          assert [] + data == data;
        }
      }
    }

    /** io.c:1495-1528 and the payload of the other messages: one header, and one whole message if it is not the
        start of a data frame. */
    method ReadAMsg(ghost frames: seq<Frame>) returns (ok: bool)
      requires Valid() && v.ends == 0
      modifies this`v, this`socket, this`h, buf
      ensures Sound() && (ok ==> h.extra == []) && h.received + socket == old(h.received + socket)
      ensures Delivered() == old(Delivered()) && old(Messages()) <= Messages()
      ensures ok ==> Remaining() < old(Remaining())
      ensures old(Coming(frames)) ==> (ok <==> old(h.whole) != frames)
      ensures ok ==> h.whole == old(h.whole) || Grown(old(h.whole), h.whole, limit)
    {
      hide Tracked, Get, DataOf, MsgsOf, Header, Frame.Ok, Word, Encode, TagCode;
      ghost var coming := Coming(frames);
      if coming {
        Position(buf[..], v, h, socket, frames);
        Upcoming(frames, |h.whole|);
      }
      var tag;
      ok, tag := RawReadInt();
      TrackedBounds(buf[..], v, h);
      if !ok {
        return;
      }
      if coming {
        NextHeader(buf[..], v, h, socket, frames);
      }
      var n, code := TagLen(tag), TagCode(tag);
      if code < 0 || code + MPLEX_BASE >= 0x80 {
        return false;
      }
      TagBytes(h.extra);
      if code == MSG_DATA && n != 0 {
        HeaderDone(buf[..], v, h, n);
        v, h := v.(ends := v.pos + n), h.(extra := []);
        return;
      }
      var data: seq<byte> := [];
      if n != 0 {
        if n >= limit {
          return false;
        }
        ok, data := RawReadBuf(n);
        if !ok {
          return;
        }
      }
      FrameIsOk(code, data);
      FrameDone(buf[..], v, h, Frame(code, data));
      h := h.(whole := h.whole + [Frame(code, data)], extra := []);
    }

    /** io.c:1967-1989: exactly `len` bytes of the raw data stream, whatever frames and messages they come in. */
    method ReadBuf(len: nat, ghost frames: seq<Frame>) returns (ok: bool, data: seq<byte>)
      requires Valid()
      modifies this`v, this`socket, this`h, buf
      ensures Sound() && h.received + socket == old(h.received + socket)
      ensures Delivered() == old(Delivered()) + data && old(Messages()) <= Messages()
      ensures ok ==> Valid() && |data| == len
      ensures old(Coming(frames)) ==> (ok <==> |old(Delivered())| + (if len == 0 then 1 else len) <= |DataOf(frames)|)
    {
      hide Tracked, Get, DataOf, MsgsOf, Encode;
      ghost var coming := Coming(frames);
      data := [];
      var left := len;
      while true
        invariant Valid() && h.received + socket == old(h.received + socket) && 0 <= left <= len
        invariant |data| + left == len && (left == 0 ==> len == 0)
        invariant Delivered() == old(Delivered()) + data && old(Messages()) <= Messages()
        decreases Remaining(), left
      {
        while v.ends == 0
          invariant Valid() && h.received + socket == old(h.received + socket)
          invariant Delivered() == old(Delivered()) + data && old(Messages()) <= Messages()
          decreases Remaining()
        {
          TrackedBounds(buf[..], v, h);
          ghost var whole := h.whole;
          Owed(whole, h.part, 0, whole);
          ok := ReadAMsg(frames);
          if !ok {
            return;
          }
        }
        TrackedBounds(buf[..], v, h);
        if coming {
          Position(buf[..], v, h, socket, frames);
          Owed(h.whole, h.part, v.Left(), frames);
        }
        var siz := if left < v.ends - v.pos then left else v.ends - v.pos;
        if siz >= buf.Length {
          siz := buf.Length;
        }
        var bytes;
        ok, bytes := RawReadBuf(siz);
        if !ok {
          return;
        }
        data, left := data + bytes, left - siz;
        if left == 0 {
          return;
        }
      }
    }
  }

  lemma FrameIsOk(code: nat, data: seq<byte>)
    requires code + MPLEX_BASE < 0x80 && |data| < 0x100_0000
    ensures Frame(code, data).Ok() && (code != MSG_DATA || data == [] ==> Frame(code, data).Data() == [])
    ensures Frame(code, data).Wire() == Header(code, |data|) + data
  {
  }

  /** Both ends together: in every pair of reachable states, what the reader has delivered and the messages it
      has handled are prefixes of what the writer was given. */
  lemma StreamSafety(writer: Output, reader: Input)
    requires writer.Valid() && reader.Sound() && reader.h.received <= writer.wire
    ensures reader.Delivered() <= writer.h.written && reader.Messages() <= writer.h.posted
  {
    hide Tracked, Encode, DataOf, MsgsOf, Get;
    var o, m, h := OutOf(writer.out[..], writer.o), MsgOf(writer.msg[..], writer.m), writer.h;
    assert writer.wire <= Encode(h.frames);
    assert DataOf(h.frames) <= h.written && MsgsOf(h.frames) <= h.posted;
    Understood(reader.buf[..], reader.v, reader.h, h.frames);
  }

  /** After a flush that left nothing, a reader that gets all of the wire, and takes messages of that size, can read
      exactly what was written. */
  lemma FlushedComing(writer: Output, reader: Input)
    requires writer.Valid() && writer.AllSent() && reader.h.received + reader.socket == writer.wire
    requires forall f :: f in writer.h.posted ==> |f.payload| < reader.limit && |f.payload| <= reader.buf.Length
    ensures reader.Coming(writer.h.frames) && DataOf(writer.h.frames) == writer.h.written
  {
    hide Encode, DataOf, Get, Out.Ok, Msg.Ok;
    forall f | f in writer.h.frames ensures f.code == MSG_DATA || f in writer.h.posted {
      if f.code != MSG_DATA {
        Posted(writer.h.frames, f);
      }
    }
  }

  lemma {:induction false} Posted(fs: seq<Frame>, f: Frame)
    requires f in fs && f.code != MSG_DATA
    ensures f in MsgsOf(fs)
  {
    if f != fs[0] {
      assert fs == [fs[0]] + fs[1..];
      Posted(fs[1..], f);
    }
  }

  method CopyBytes(buf: array<byte>, before: nat, v: InVars, pos: nat, n: nat) returns (data: seq<byte>)
    requires v.Ok(buf.Length) && n <= v.len && (v.ends == 0 || n <= v.Left())
    requires (before == v.pos || v.pos == 0) && pos == Taken(v, buf.Length, n).pos
    ensures |data| == n && data == Get(buf[..], buf.Length, v.pos, n)
  {
    CopyOut(buf[..], before, v, n);
    if pos <= before && n != 0 {
      data := buf[v.pos..v.pos + (n - pos)] + buf[..pos];
    } else {
      data := buf[v.pos..v.pos + n];
    }
  }

  /** io.c:906-916. */
  method Consume(v: InVars, size: nat, n: nat) returns (v': InVars)
    requires n <= v.len <= size && v.pos < size && (v.ends == 0 || v.pos + n <= v.ends)
    ensures v' == Taken(v, size, n)
  {
    var len, pos, ends := v.len - n, v.pos + n, v.ends;
    if pos == ends {
      ends := 0;
    }
    if pos >= size {
      pos := pos - size;
      if ends != 0 {
        ends := ends - size;
      }
    }
    v' := InVars(pos, len, ends);
  }

  lemma TrackedBounds(mem: seq<byte>, v: InVars, h: InHistory)
    requires Tracked(mem, v, h)
    ensures v.Ok(|mem|) && |h.part| + v.Left() < 0x100_0000 && (v.ends == 0 ==> h.part == [])
  {
  }
}
