/** The multiplexed wire format of io.c: a 4-byte header, then the payload. */
module Frames {
  import opened Bytes
  import opened Codec

  const MPLEX_BASE := 7
  const MSG_DATA := 0

  datatype Frame = Frame(code: nat, payload: seq<byte>)
  {
    /** What a header can carry: the tag byte stays positive and the length has 24 bits. */
    predicate Ok() {
      code + MPLEX_BASE < 0x80 && |payload| < 0x100_0000
    }

    function Wire(): seq<byte> {
      Header(code, |payload|) + payload
    }

    function Data(): seq<byte> {
      if code == MSG_DATA then payload else []
    }

    function Msgs(): seq<Frame> {
      if code == MSG_DATA then [] else [this]
    }
  }

  function Header(code: nat, n: nat): (h: seq<byte>)
    ensures |h| == 4
  {
    LE((MPLEX_BASE + code) * 0x100_0000 + n, 4)
  }

  predicate AllOk(fs: seq<Frame>) {
    forall i :: 0 <= i < |fs| ==> fs[i].Ok()
  }

  function Encode(fs: seq<Frame>): seq<byte> {
    if fs == [] then [] else fs[0].Wire() + Encode(fs[1..])
  }

  /** The raw data stream carried by the frames. */
  function DataOf(fs: seq<Frame>): seq<byte> {
    if fs == [] then [] else fs[0].Data() + DataOf(fs[1..])
  }

  /** The messages among the frames, in order. */
  function MsgsOf(fs: seq<Frame>): seq<Frame> {
    if fs == [] then [] else fs[0].Msgs() + MsgsOf(fs[1..])
  }

  lemma {:induction false} JoinWire(a: seq<Frame>, b: seq<Frame>)
    ensures Encode(a + b) == Encode(a) + Encode(b)
  {
    hide Frame.Wire;
    if a == [] {
      assert a + b == b;
    } else {
      JoinWire(a[1..], b);
      assert (a + b)[1..] == a[1..] + b;
      Associative(a[0].Wire(), Encode(a[1..]), Encode(b));
    }
  }

  lemma {:induction false} JoinData(a: seq<Frame>, b: seq<Frame>)
    ensures DataOf(a + b) == DataOf(a) + DataOf(b)
  {
    hide Frame.Data;
    if a == [] {
      assert a + b == b;
    } else {
      JoinData(a[1..], b);
      assert (a + b)[1..] == a[1..] + b;
      Associative(a[0].Data(), DataOf(a[1..]), DataOf(b));
    }
  }

  lemma {:induction false} JoinMsgs(a: seq<Frame>, b: seq<Frame>)
    ensures MsgsOf(a + b) == MsgsOf(a) + MsgsOf(b)
  {
    hide Frame.Msgs;
    if a == [] {
      assert a + b == b;
    } else {
      JoinMsgs(a[1..], b);
      assert (a + b)[1..] == a[1..] + b;
      Associative(a[0].Msgs(), MsgsOf(a[1..]), MsgsOf(b));
    }
  }

  lemma Join(a: seq<Frame>, b: seq<Frame>)
    ensures Encode(a + b) == Encode(a) + Encode(b)
    ensures DataOf(a + b) == DataOf(a) + DataOf(b)
    ensures MsgsOf(a + b) == MsgsOf(a) + MsgsOf(b)
  {
    hide *;
    JoinWire(a, b);
    JoinData(a, b);
    JoinMsgs(a, b);
  }

  lemma One(f: Frame)
    ensures Encode([f]) == f.Wire()
    ensures DataOf([f]) == f.Data() && MsgsOf([f]) == f.Msgs()
  {
    assert [f][1..] == [];
  }

  lemma {:induction false} AllMessages(fs: seq<Frame>)
    requires forall f :: f in fs ==> f.code != MSG_DATA
    ensures DataOf(fs) == [] && MsgsOf(fs) == fs
  {
    if fs != [] {
      AllMessages(fs[1..]);
      assert fs == [fs[0]] + fs[1..];
    }
  }

  // ---------- decoding ----------

  function TagCode(tag: nat): int {
    tag / 0x100_0000 - MPLEX_BASE
  }

  function TagLen(tag: nat): nat {
    tag % 0x100_0000
  }

  lemma HeaderWord(code: nat, n: nat)
    requires code + MPLEX_BASE < 0x80 && n < 0x100_0000
    ensures var tag := Word(Header(code, n)); tag < 0x8000_0000 && TagCode(tag) == code && TagLen(tag) == n
  {
    var tag := (MPLEX_BASE + code) * 0x100_0000 + n;
    Powers();
    WordOfLE(tag, 4);
  }

  /** Two frame sequences of which one encoding starts with the other: so do the sequences. */
  lemma {:induction false} PrefixDecode(a: seq<Frame>, b: seq<Frame>)
    requires AllOk(a) && AllOk(b) && Encode(a) <= Encode(b)
    ensures a <= b
  {
    hide Header, Encode;
    if a != [] {
      var f := a[0];
      Unfold(a);
      SameHead(f.code, |f.payload|, f.payload + Encode(a[1..]), b);
      SamePayload(f.payload, Encode(a[1..]), b[0].payload, Encode(b[1..]));
      PrefixDecode(a[1..], b[1..]);
      assert a == [f] + a[1..] && b == [b[0]] + b[1..];
    }
  }

  lemma Unfold(fs: seq<Frame>)
    requires fs != []
    ensures Encode(fs) == Header(fs[0].code, |fs[0].payload|) + (fs[0].payload + Encode(fs[1..]))
  {
    hide Header;
    Associative(Header(fs[0].code, |fs[0].payload|), fs[0].payload, Encode(fs[1..]));
  }

  /** A header in front of an encoding is the header of its first frame. */
  lemma SameHead(code: nat, n: nat, s: seq<byte>, b: seq<Frame>)
    requires code + MPLEX_BASE < 0x80 && n < 0x100_0000 && AllOk(b)
    requires Header(code, n) + s <= Encode(b)
    ensures b != [] && b[0].code == code && |b[0].payload| == n
    ensures s <= b[0].payload + Encode(b[1..])
  {
    hide Header, Word, TagCode, TagLen;
    assert b != [];
    Unfold(b);
    var g := b[0];
    SamePayload(Header(code, n), s, Header(g.code, |g.payload|), g.payload + Encode(b[1..]));
    HeaderWord(code, n);
    HeaderWord(g.code, |g.payload|);
  }

  lemma SamePayload(p: seq<byte>, s: seq<byte>, q: seq<byte>, t: seq<byte>)
    requires |p| == |q| && p + s <= q + t
    ensures p == q && s <= t
  {
    assert p == (p + s)[..|p|] && q == (q + t)[..|p|];
    assert s == (p + s)[|p|..] && t == (q + t)[|p|..];
  }

  /** The same with an unfinished data frame at the end. */
  lemma {:induction false} PartialDecode(a: seq<Frame>, n: nat, part: seq<byte>, b: seq<Frame>)
    requires AllOk(a) && AllOk(b) && |part| <= n < 0x100_0000
    requires Encode(a) + Header(MSG_DATA, n) + part <= Encode(b)
    ensures |a| < |b| && a <= b && b[|a|].code == MSG_DATA && part <= b[|a|].payload
  {
    hide Header, Encode;
    var end := Header(MSG_DATA, n) + part;
    if a == [] {
      assert Encode(a) + Header(MSG_DATA, n) + part == end by { Nothing(); }
      SameHead(MSG_DATA, n, part, b);
      assert part == (b[0].payload + Encode(b[1..]))[..|part|];
    } else {
      var f, tail := a[0], Encode(a[1..]) + Header(MSG_DATA, n) + part;
      Unfold(a);
      assert Encode(a) + Header(MSG_DATA, n) + part == Header(f.code, |f.payload|) + (f.payload + tail);
      SameHead(f.code, |f.payload|, f.payload + tail, b);
      SamePayload(f.payload, tail, b[0].payload, Encode(b[1..]));
      PartialDecode(a[1..], n, part, b[1..]);
      assert a == [f] + a[1..] && b == [b[0]] + b[1..];
    }
  }

  lemma Nothing()
    ensures Encode([]) == []
  {
  }

  /** What has been read is a prefix of what was framed, for the data and for the messages. */
  lemma ReadIsPrefix(a: seq<Frame>, part: seq<byte>, b: seq<Frame>)
    requires a <= b && (part == [] || (|a| < |b| && b[|a|].code == MSG_DATA && part <= b[|a|].payload))
    ensures DataOf(a) + part <= DataOf(b) && MsgsOf(a) <= MsgsOf(b)
  {
    hide Encode;
    assert b == a + b[|a|..];
    Join(a, b[|a|..]);
    if part != [] {
      var rest := b[|a|..];
      assert DataOf(rest) == b[|a|].payload + DataOf(rest[1..]);
    }
  }
}
