/** flist.c: the flag word in front of every file-list entry, and the end-of-list markers. */
module EntryFlags {
  import opened Bytes
  import opened Codec

  /** The XMIT_* bits of protocol 30 and later.  Bit 8 is SAME_RDEV_MAJOR for devices, NO_CONTENT_DIR for directories. */
  datatype XFlags = XFlags(topDir: bool, sameMode: bool, extended: bool, sameUid: bool, sameGid: bool, sameName: bool,
                           longName: bool, sameTime: bool, bit8: bool, hlinked: bool, userName: bool, groupName: bool,
                           hlinkFirst: bool, modNsec: bool, sameAtime: bool, crtimeEq: bool)

  /** A bit in front of the remaining ones, and back. */
  function Push(b: bool, rest: nat): nat {
    (if b then 1 else 0) + 2 * rest
  }

  function Pop(n: nat): (bool, nat) {
    (n % 2 == 1, n / 2)
  }

  function Low(x: XFlags, rest: nat): nat {
    Push(x.topDir, Push(x.sameMode, Push(x.extended, Push(x.sameUid,
    Push(x.sameGid, Push(x.sameName, Push(x.longName, Push(x.sameTime, rest))))))))
  }

  function High(x: XFlags, rest: nat): nat {
    Push(x.bit8, Push(x.hlinked, Push(x.userName, Push(x.groupName,
    Push(x.hlinkFirst, Push(x.modNsec, Push(x.sameAtime, Push(false, rest))))))))
  }

  function ToNat(x: XFlags): nat {
    Low(x, High(x, Push(false, Push(x.crtimeEq, 0))))
  }

  function FromNat(n: nat): XFlags {
    var (topDir, n) := Pop(n);
    var (sameMode, n) := Pop(n);
    var (extended, n) := Pop(n);
    var (sameUid, n) := Pop(n);
    var (sameGid, n) := Pop(n);
    var (sameName, n) := Pop(n);
    var (longName, n) := Pop(n);
    var (sameTime, n) := Pop(n);
    var (bit8, n) := Pop(n);
    var (hlinked, n) := Pop(n);
    var (userName, n) := Pop(n);
    var (groupName, n) := Pop(n);
    var (hlinkFirst, n) := Pop(n);
    var (modNsec, n) := Pop(n);
    var (sameAtime, n) := Pop(n);
    var (_, n) := Pop(n);
    var (_, n) := Pop(n);
    var (crtimeEq, _) := Pop(n);
    XFlags(topDir, sameMode, extended, sameUid, sameGid, sameName, longName, sameTime,
           bit8, hlinked, userName, groupName, hlinkFirst, modNsec, sameAtime, crtimeEq)
  }

  lemma PopPush()
    ensures forall b: bool, rest: nat :: Pop(Push(b, rest)) == (b, rest)
  {
    hide Push, Pop;
    forall b: bool, rest: nat
      ensures Pop(Push(b, rest)) == (b, rest)
    {
      PopOne(b, rest);
    }
  }

  lemma PopOne(b: bool, rest: nat)
    ensures Pop(Push(b, rest)) == (b, rest)
  {
  }

  lemma FlagsRoundTrip(x: XFlags)
    ensures FromNat(ToNat(x)) == x
  {
    hide Push, Pop;
    PopPush();
  }

  lemma LowByte(x: XFlags, rest: nat)
    ensures Low(x, rest) == Low(x, 0) + 0x100 * rest && Low(x, 0) < 0x100
    ensures Low(x, 0) != 0 <==> LowBits(x)
  {
  }

  lemma HighByte(x: XFlags, rest: nat)
    ensures High(x, rest) == High(x, 0) + 0x100 * rest && High(x, 0) < 0x80
    ensures High(x, 0) != 0 <==> HighBits(x)
  {
  }

  /** The flag word is two bytes and, far above them, one more bit. */
  lemma FlagWord(x: XFlags)
    ensures ToNat(x) == Low(x, 0) + 0x100 * High(x, 0) + (if x.crtimeEq then 0x2_0000 else 0)
    ensures Low(x, 0) < 0x100 && High(x, 0) < 0x80
  {
    hide Low, High;
    var top := Push(false, Push(x.crtimeEq, 0));
    LowByte(x, High(x, top));
    HighByte(x, top);
  }

  // ---------- the flag word on the wire (flist.c:557-571, 2669-2694) ----------

  /** The flags as sent: TOP_DIR (meaningless on a non-directory) or EXTENDED_FLAGS is added when the word would
      be 0, and EXTENDED_FLAGS announces a second byte. */
  function Sent(varint: bool, isDir: bool, x: XFlags): XFlags {
    var none := ToNat(x) == 0;
    var fill := !varint && none && !isDir;
    var extend := if varint then none else HighBits(x) || (none && isDir);
    x.(topDir := x.topDir || fill, extended := x.extended || extend)
  }

  /** xflags & 0xFF00. */
  predicate HighBits(x: XFlags) {
    x.bit8 || x.hlinked || x.userName || x.groupName || x.hlinkFirst || x.modNsec || x.sameAtime
  }

  /** xflags & 0xFF. */
  predicate LowBits(x: XFlags) {
    x.topDir || x.sameMode || x.extended || x.sameUid || x.sameGid || x.sameName || x.longName || x.sameTime
  }

  const NO_FLAGS := XFlags(false, false, false, false, false, false, false, false,
                           false, false, false, false, false, false, false, false)

  /** Each flag has its bit: rsync.h:47-73. */
  lemma FlagBits()
    ensures ToNat(NO_FLAGS.(topDir := true)) == 0x1 && ToNat(NO_FLAGS.(sameMode := true)) == 0x2
    ensures ToNat(NO_FLAGS.(extended := true)) == 0x4 && ToNat(NO_FLAGS.(sameUid := true)) == 0x8
    ensures ToNat(NO_FLAGS.(sameGid := true)) == 0x10 && ToNat(NO_FLAGS.(sameName := true)) == 0x20
    ensures ToNat(NO_FLAGS.(longName := true)) == 0x40 && ToNat(NO_FLAGS.(sameTime := true)) == 0x80
    ensures ToNat(NO_FLAGS.(bit8 := true)) == 0x100 && ToNat(NO_FLAGS.(hlinked := true)) == 0x200
    ensures ToNat(NO_FLAGS.(userName := true)) == 0x400 && ToNat(NO_FLAGS.(groupName := true)) == 0x800
    ensures ToNat(NO_FLAGS.(hlinkFirst := true)) == 0x1000 && ToNat(NO_FLAGS.(modNsec := true)) == 0x2000
    ensures ToNat(NO_FLAGS.(sameAtime := true)) == 0x4000 && ToNat(NO_FLAGS.(crtimeEq := true)) == 0x2_0000
  {
  }

  /** A second byte of flags is sent only when it says something, or when a directory has no flag at all. */
  lemma FlagBytes(isDir: bool, x: XFlags, tail: seq<byte>)
    requires !x.extended
    ensures |PutFlags(false, Sent(false, isDir, x), tail)| - |tail|
         == if HighBits(x) || (isDir && !LowBits(x) && !x.crtimeEq) then 2 else 1
  {
    hide ToNat;
    SomeBit(x);
  }

  lemma SomeBit(x: XFlags)
    ensures ToNat(x) == 0 <==> !(LowBits(x) || HighBits(x) || x.crtimeEq)
  {
    hide ToNat, Low, High;
    FlagWord(x);
    LowByte(x, 0);
    HighByte(x, 0);
  }

  function PutFlags(varint: bool, y: XFlags, tail: seq<byte>): seq<byte> {
    PutWord(varint, ToNat(y), y.extended, tail)
  }

  function PutWord(varint: bool, n: nat, extended: bool, tail: seq<byte>): seq<byte> {
    if varint then EncodeVarint(n) + tail
    else if extended then [n % 0x100, n / 0x100 % 0x100] + tail
    else [n % 0x100] + tail
  }

  datatype Head = Flags(x: XFlags) | EndOfList(ioError: int) | InvalidFlag

  /** The head of recv_file_list's loop. */
  function GetFlags(varint: bool, safeEnd: bool, s: seq<byte>): Read<Head> {
    if varint then
      var (n, s1) :- DecodeVarint(s);
      if n == 0 then
        var (err, s2) :- DecodeVarint(s1);
        Got(EndOfList(err), s2)
      else Got(Flags(FromNat(Unsigned(n, 32))), s1)
    else if s == [] then Short
    else if s[0] == 0 then Got(EndOfList(0), s[1..])
    else if !FromNat(s[0]).extended then Got(Flags(FromNat(s[0])), s[1..])
    else if |s| < 2 then Short
    else
      var low: int, high: int := s[0], s[1];
      var n := low + 0x100 * high;
      if n != 0x1004 then Got(Flags(FromNat(n)), s[2..])
      else if !safeEnd then Got(InvalidFlag, s[2..])
      else
        var (err, s2) :- DecodeVarint(s[2..]);
        Got(EndOfList(err), s2)
  }

  /** Without the one bit above them, the flags are two bytes. */
  lemma TwoBytes(y: XFlags)
    requires !y.crtimeEq
    ensures ToNat(y) < 0x1_0000 && ToNat(y) % 0x100 == Low(y, 0)
    ensures (ToNat(y) % 0x100 != 0 <==> LowBits(y)) && (!HighBits(y) ==> ToNat(y) < 0x100)
    ensures FromNat(ToNat(y) % 0x100).extended == y.extended
  {
    hide Low, High, ToNat, FromNat;
    FlagWord(y);
    LowByte(y, 0);
    HighByte(y, 0);
    ExtendedBit(y);
  }

  lemma ExtendedBit(y: XFlags)
    ensures FromNat(Low(y, 0)).extended == y.extended
  {
    hide Push, Pop;
    PopPush();
  }

  lemma NotEndMarker(y: XFlags)
    requires y.hlinkFirst ==> y.hlinked
    ensures ToNat(y) != 0x1004
  {
    hide Low, High, ToNat, FromNat;
    FlagWord(y);
    if ToNat(y) == 0x1004 {
      MarkerByte(y);
    }
  }

  lemma MarkerByte(y: XFlags)
    requires High(y, 0) == 0x10
    ensures y.hlinkFirst && !y.hlinked
  {
  }

  lemma LowBit(x: XFlags, y: XFlags)
    requires x.topDir ==> y.topDir
    requires x.extended ==> y.extended
    requires x.sameMode == y.sameMode && x.sameUid == y.sameUid && x.sameGid == y.sameGid
    requires x.sameName == y.sameName && x.longName == y.longName && x.sameTime == y.sameTime
    ensures LowBits(y) == (LowBits(x) || y.topDir || y.extended)
  {
  }

  lemma SameHigh(x: XFlags, y: XFlags)
    requires x.bit8 == y.bit8 && x.hlinked == y.hlinked && x.userName == y.userName && x.groupName == y.groupName
    requires x.hlinkFirst == y.hlinkFirst && x.modNsec == y.modNsec && x.sameAtime == y.sameAtime
    ensures HighBits(x) == HighBits(y)
  {
  }

  lemma SentIsSomething(varint: bool, isDir: bool, x: XFlags)
    requires !varint ==> !x.crtimeEq
    requires !x.extended
    ensures var y := Sent(varint, isDir, x);
      && y.hlinkFirst == x.hlinkFirst && y.hlinked == x.hlinked && y.crtimeEq == x.crtimeEq
      && ToNat(y) != 0
      && (!varint ==> (y.extended || !HighBits(y)) && ToNat(y) % 0x100 != 0)
  {
    hide ToNat, FromNat, LowBits, HighBits;
    var y := Sent(varint, isDir, x);
    SomeBit(x);
    SomeBit(y);
    LowBit(x, y);
    SameHigh(x, y);
    if !varint {
      TwoBytes(y);
    }
  }

  /** No entry's flags read as an end-of-list marker, and all of them arrive as sent. */
  lemma FlagsArrive(varint: bool, safeEnd: bool, isDir: bool, x: XFlags, tail: seq<byte>)
    requires x.hlinkFirst ==> x.hlinked
    requires !varint ==> !x.crtimeEq
    requires !x.extended
    ensures var y := Sent(varint, isDir, x); GetFlags(varint, safeEnd, PutFlags(varint, y, tail)) == Got(Flags(y), tail)
  {
    hide ToNat, FromNat, EncodeVarint, DecodeVarint, Sent, LowBits, HighBits, Low, High;
    var y := Sent(varint, isDir, x);
    SentIsSomething(varint, isDir, x);
    FlagsRoundTrip(y);
    FlagWord(y);
    if varint {
      VarintRoundTrip(ToNat(y), tail);
    } else {
      TwoBytes(y);
      NotEndMarker(y);
      var s := PutFlags(varint, y, tail);
      if y.extended {
        assert s[2..] == tail;
      } else {
        assert s[1..] == tail;
      }
    }
  }
}
