/** flist.c: what an entry of the file list is, and the coding of its attributes relative to the previous entry. */
module FileEntry {
  import opened Bytes
  import opened Codec
  import opened EntryFlags

  const MAXPATHLEN := 4096
  const MAX_WIRE_NSEC := 999_999_999

  // ---------- file types ----------

  function Type(mode: int): int {
    mode / 0x1000 % 16
  }

  predicate IsReg(mode: int) { Type(mode) == 8 }
  predicate IsDir(mode: int) { Type(mode) == 4 }
  predicate IsLnk(mode: int) { Type(mode) == 10 }
  predicate IsDevice(mode: int) { Type(mode) == 2 || Type(mode) == 6 }
  predicate IsSpecial(mode: int) { Type(mode) == 1 || Type(mode) == 12 }

  predicate KnownType(mode: int) {
    IsReg(mode) || IsDir(mode) || IsLnk(mode) || IsDevice(mode) || IsSpecial(mode)
  }

  /** What both ends agreed on, and how ids translate: the tables of uidlist.c, as fixed functions. */
  datatype Options = Options(protocol: nat, varintFlags: bool, safeEnd: bool, incRecurse: bool,
                             preserveUid: bool, preserveGid: bool, numericIds: bool,
                             preserveDevices: bool, preserveSpecials: bool, preserveLinks: bool,
                             atimes: bool, crtimes: bool, checksums: bool, csumLen: nat, missingArgs: bool,
                             userName: int -> seq<byte>, groupName: int -> seq<byte>,
                             uidMap: int -> int, gidMap: int -> int, gidSkip: int -> bool)
  {
    /** compat.c:760: --crtimes needs the wide flags. */
    ghost predicate Ok() {
      && 30 <= protocol && (crtimes ==> varintFlags)
      && (forall id :: |userName(id)| < 256) && (forall id :: |groupName(id)| < 256)
    }

    predicate HasRdev(mode: int) {
      (preserveDevices && IsDevice(mode)) || (preserveSpecials && IsSpecial(mode) && protocol < 31)
    }

    predicate HasAtime(mode: int) {
      atimes && !IsDir(mode)
    }
  }

  datatype DirKind = Content(top: bool) | Implied | NoContent
  datatype Inode = NoInode | Inode(dev: int, ino: int)

  /** An entry as the sender sees it. */
  datatype Entry = Entry(name: seq<byte>, mode: int, length: int, modtime: int, nsec: int, atime: int, crtime: int,
                         uid: int, gid: int, major: int, minor: int, link: seq<byte>, sum: seq<byte>,
                         dir: DirKind, inode: Inode)
  {
    /** What make_file and send_file_name guarantee. */
    predicate Ok(o: Options) {
      && 0 < |name| < MAXPATHLEN && 0 <= mode < 0x1_0000 && (KnownType(mode) || (mode == 0 && o.missingArgs))
      && 0 <= length < 0x8000_0000_0000_0000 && (!IsReg(mode) ==> length < TWO32)
      && (IsDevice(mode) || IsSpecial(mode) ==> length == 0)
      && IsInt64(modtime) && IsInt64(atime) && IsInt64(crtime)
      && 0 <= nsec <= MAX_WIRE_NSEC && (o.protocol < 31 ==> nsec == 0)
      && 0 <= uid < TWO32 && 0 <= gid < TWO32 && 0 <= major < TWO32 && 0 <= minor < TWO32
      && (o.preserveLinks && IsLnk(mode) ==> 0 < |link| < MAXPATHLEN)
      && (o.checksums && IsReg(mode) ==> |sum| == o.csumLen)
      && (IsDir(mode) ==> inode == NoInode)
    }
  }

  /** The attributes of an entry as the receiver stores them: what is not preserved is absent. */
  datatype Attrs = Attrs(mode: int, length: int, modtime: int, nsec: int, atime: int, crtime: int,
                         uid: int, gid: int, major: int, minor: int, link: seq<byte>, sum: seq<byte>)

  function Stored(o: Options, e: Entry): Attrs {
    Attrs(e.mode, e.length, e.modtime, e.nsec,
          if o.HasAtime(e.mode) then e.atime else 0, if o.crtimes then e.crtime else 0,
          if o.preserveUid then o.uidMap(e.uid) else 0, if o.preserveGid then o.gidMap(e.gid) else 0,
          if o.preserveDevices && IsDevice(e.mode) then e.major else 0,
          if o.preserveDevices && IsDevice(e.mode) then e.minor else 0,
          if o.preserveLinks && IsLnk(e.mode) then e.link else [],
          if o.checksums && IsReg(e.mode) then e.sum else [])
  }

  /** The static variables that both send_file_entry and recv_file_entry keep. */
  datatype Last = Last(name: seq<byte>, mode: int, modtime: int, atime: int, uid: int, gid: int, major: int)

  const START := Last([], 0, 0, 0, 0, 0, 0)

  // ---------- optional fields ----------

  function PutVarlong(send: bool, x: int, tail: seq<byte>): seq<byte> {
    if send then EncodeVarlong(x, 4) + tail else tail
  }

  function GetVarlong(send: bool, prev: int, s: seq<byte>): Read<int> {
    if send then DecodeVarlong(s, 4) else Got(prev, s)
  }

  lemma VarlongField(send: bool, x: int, prev: int, tail: seq<byte>)
    requires IsInt64(x) && (send || x == prev)
    ensures GetVarlong(send, prev, PutVarlong(send, x, tail)) == Got(x, tail)
  {
    hide EncodeVarlong, DecodeVarlong;
    VarlongRoundTrip(x, 4, tail);
  }

  function PutVarint(send: bool, x: int, tail: seq<byte>): seq<byte> {
    if send then EncodeVarint(AsSigned(Unsigned(x, 32), 32)) + tail else tail
  }

  /** An unsigned 32-bit value travels as a signed varint. */
  function GetVarint(send: bool, prev: int, s: seq<byte>): Read<int> {
    if send then
      var (x, rest) :- DecodeVarint(s);
      Got(Unsigned(x, 32), rest)
    else Got(prev, s)
  }

  lemma VarintField(send: bool, x: int, prev: int, tail: seq<byte>)
    requires 0 <= x < TWO32 && (send || x == prev)
    ensures GetVarint(send, prev, PutVarint(send, x, tail)) == Got(x, tail)
  {
    hide EncodeVarint, DecodeVarint;
    VarintRoundTrip(AsSigned(Unsigned(x, 32), 32), tail);
  }

  function PutBytes(send: bool, data: seq<byte>, tail: seq<byte>): seq<byte> {
    if send then data + tail else tail
  }

  function GetBytes(send: bool, n: nat, s: seq<byte>): Read<seq<byte>> {
    if !send then Got([], s) else if |s| < n then Short else Got(s[..n], s[n..])
  }

  lemma BytesField(send: bool, data: seq<byte>, tail: seq<byte>)
    ensures GetBytes(send, |data|, PutBytes(send, data, tail)) == Got(if send then data else [], tail)
  {
  }

  /** A byte-counted string, as the user and group names are sent. */
  function PutCounted(send: bool, data: seq<byte>, tail: seq<byte>): seq<byte>
    requires |data| < 256
  {
    if send then [|data|] + data + tail else tail
  }

  function GetCounted(send: bool, s: seq<byte>): Read<seq<byte>> {
    if !send then Got([], s) else if s == [] then Short else
      var n: int := s[0];
      if |s| < 1 + n then Short else Got(s[1..1 + n], s[1 + n..])
  }

  lemma CountedField(send: bool, data: seq<byte>, tail: seq<byte>)
    requires |data| < 256
    ensures GetCounted(send, PutCounted(send, data, tail)) == Got(if send then data else [], tail)
  {
    if send {
      var s := [|data|] + data + tail;
      assert s[1..1 + |data|] == data && s[1 + |data|..] == tail;
    }
  }

  // ---------- the name (flist.c:547-583, 729-749) ----------

  /** How far the name repeats the previous one, up to 255 bytes. */
  function Common(last: seq<byte>, name: seq<byte>, max: nat): (n: nat)
    ensures n <= |last| && n <= |name| && n <= max && last[..n] == name[..n]
    ensures n == max || n == |last| || n == |name| || last[n] != name[n]
    decreases max
  {
    if max == 0 || last == [] || name == [] || last[0] != name[0] then 0
    else 1 + Common(last[1..], name[1..], max - 1)
  }

  function PutName(last: seq<byte>, name: seq<byte>, tail: seq<byte>): seq<byte> {
    var l1 := Common(last, name, 255);
    var l2 := |name| - l1;
    PutBytes(l1 > 0, [l1], PutLen(l2, name[l1..] + tail))
  }

  /** The length of the rest of the name: one byte, or a varint when that is not enough. */
  function PutLen(l2: nat, tail: seq<byte>): seq<byte> {
    if l2 > 255 then EncodeVarint(l2) + tail else [l2] + tail
  }

  function GetLen(long: bool, s: seq<byte>): Read<int> {
    if long then DecodeVarint(s) else GetBytes1(s)
  }

  lemma LenArrives(l2: nat, tail: seq<byte>)
    requires l2 < MAXPATHLEN
    ensures GetLen(l2 > 255, PutLen(l2, tail)) == Got(l2, tail)
  {
    hide EncodeVarint, DecodeVarint;
    if l2 > 255 {
      VarintRoundTrip(l2, tail);
    } else {
      assert ([l2] + tail)[1..] == tail;
    }
  }

  function GetName(x: XFlags, last: seq<byte>, s: seq<byte>): Read<seq<byte>> {
    var (b, s1) :- GetBytes(x.sameName, 1, s);
    GetNameRest(if x.sameName && b != [] then b[0] else 0, x.longName, last, s1)
  }

  function GetNameRest(l1: nat, long: bool, last: seq<byte>, s1: seq<byte>): Read<seq<byte>> {
    var (l2, s2) :- GetLen(long, s1);
    if l2 < 0 || l2 >= MAXPATHLEN - l1 || l1 > |last| then Overflow
    else if |s2| < l2 then Short
    else Got(last[..l1] + s2[..l2], s2[l2..])
  }

  function GetBytes1(s: seq<byte>): Read<int> {
    if s == [] then Short else Got(s[0], s[1..])
  }

  lemma NameArrives(x: XFlags, last: seq<byte>, name: seq<byte>, tail: seq<byte>)
    requires |name| < MAXPATHLEN
    requires var l1 := Common(last, name, 255);
      x.sameName == (l1 > 0) && x.longName == (|name| - l1 > 255)
    ensures GetName(x, last, PutName(last, name, tail)) == Got(name, tail)
  {
    hide Common, PutLen, GetNameRest;
    var l1 := Common(last, name, 255);
    NameRest(last, name, l1, tail);
    var s1 := PutLen(|name| - l1, name[l1..] + tail);
    if l1 > 0 {
      assert ([l1] + s1)[..1] == [l1] && ([l1] + s1)[1..] == s1;
    }
  }

  lemma NameRest(last: seq<byte>, name: seq<byte>, l1: nat, tail: seq<byte>)
    requires |name| < MAXPATHLEN && l1 <= |last| && l1 <= |name| && last[..l1] == name[..l1]
    ensures GetNameRest(l1, |name| - l1 > 255, last, PutLen(|name| - l1, name[l1..] + tail)) == Got(name, tail)
  {
    hide PutLen, GetLen;
    var l2, body := |name| - l1, name[l1..] + tail;
    LenArrives(l2, body);
    assert body[..l2] == name[l1..] && body[l2..] == tail;
    assert last[..l1] + name[l1..] == name;
  }
}
