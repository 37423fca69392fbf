/** flist.c: sending and receiving the entries of a file list (protocol 30 and later). */
module FileList {
  import opened Bytes
  import opened Codec
  import opened EntryFlags
  import opened FileEntry

  // ---------- length, times and mode (flist.c:593-609, 840-904) ----------

  datatype Times = Times(length: int, modtime: int, nsec: int, crtime: int, mode: int, atime: int)

  function PutMode(send: bool, mode: int, tail: seq<byte>): seq<byte> {
    if send then EncodeInt(mode) + tail else tail
  }

  function GetMode(o: Options, send: bool, prev: int, s: seq<byte>): Read<int> {
    if !send then Got(prev, s) else
      var (mode, rest) :- DecodeInt(s);
      if KnownType(mode) || (mode == 0 && o.missingArgs) then Got(mode, rest) else Overflow
  }

  lemma ModeField(o: Options, send: bool, mode: int, prev: int, tail: seq<byte>)
    requires IsInt32(mode) && (KnownType(mode) || (mode == 0 && o.missingArgs)) && (send || mode == prev)
    ensures GetMode(o, send, prev, PutMode(send, mode, tail)) == Got(mode, tail)
  {
    hide EncodeInt, DecodeInt;
    IntRoundTrip(mode, tail);
  }

  function PutTimes(o: Options, x: XFlags, e: Entry, tail: seq<byte>): seq<byte> {
    EncodeVarlong(e.length, 3) +
    PutVarlong(!x.sameTime, e.modtime,
    PutVarint(x.modNsec, e.nsec,
    PutVarlong(o.crtimes && !x.crtimeEq, e.crtime,
    PutMode(!x.sameMode, e.mode,
    PutVarlong(o.HasAtime(e.mode) && !x.sameAtime, e.atime, tail)))))
  }

  function GetTimes(o: Options, x: XFlags, l: Last, s: seq<byte>): Read<Times> {
    var (length, s) :- DecodeVarlong(s, 3);
    var (modtime, s) :- GetVarlong(!x.sameTime, l.modtime, s);
    var (nsec, s) :- GetVarint(x.modNsec, 0, s);
    var (crtime, s) :- GetVarlong(o.crtimes && !x.crtimeEq, if o.crtimes then modtime else 0, s);
    var (mode, s) :- GetMode(o, !x.sameMode, l.mode, s);
    var (atime, s) :- GetVarlong(o.HasAtime(mode) && !x.sameAtime, l.atime, s);
    if nsec > MAX_WIRE_NSEC || length < 0 then Overflow
    else Got(Times(length, modtime, nsec, crtime, mode, atime), s)
  }

  lemma TimesArrive(o: Options, x: XFlags, l: Last, e: Entry, tail: seq<byte>)
    requires e.Ok(o)
    requires x.sameTime == (e.modtime == l.modtime) && x.modNsec == (e.nsec != 0) && x.sameMode == (e.mode == l.mode)
    requires x.crtimeEq == (o.crtimes && e.crtime == e.modtime)
    requires x.sameAtime == (o.HasAtime(e.mode) && e.atime == l.atime)
    ensures GetTimes(o, x, l, PutTimes(o, x, e, tail))
         == Got(Times(e.length, e.modtime, e.nsec, if o.crtimes then e.crtime else 0, e.mode,
                      if o.HasAtime(e.mode) then e.atime else l.atime), tail)
  {
    hide EncodeVarlong, DecodeVarlong, PutVarlong, GetVarlong, PutVarint, GetVarint, PutMode, GetMode,
         Options.HasAtime, KnownType;
    var s5 := PutVarlong(o.HasAtime(e.mode) && !x.sameAtime, e.atime, tail);
    var s4 := PutMode(!x.sameMode, e.mode, s5);
    var s3 := PutVarlong(o.crtimes && !x.crtimeEq, e.crtime, s4);
    var s2 := PutVarint(x.modNsec, e.nsec, s3);
    var s1 := PutVarlong(!x.sameTime, e.modtime, s2);
    VarlongRoundTrip(e.length, 3, s1);
    VarlongField(!x.sameTime, e.modtime, l.modtime, s2);
    VarintField(x.modNsec, e.nsec, 0, s3);
    if o.crtimes {
      VarlongField(!x.crtimeEq, e.crtime, e.modtime, s4);
    } else {
      NoVarlong(e.crtime, 0, s4);
    }
    ModeField(o, !x.sameMode, e.mode, l.mode, s5);
    if o.HasAtime(e.mode) {
      VarlongField(!x.sameAtime, e.atime, l.atime, tail);
    } else {
      NoVarlong(e.atime, l.atime, tail);
    }
  }

  lemma NoVarlong(x: int, prev: int, tail: seq<byte>)
    ensures GetVarlong(false, prev, PutVarlong(false, x, tail)) == Got(prev, tail)
  {
  }

  // ---------- owner and group (flist.c:610-633, 909-931) ----------

  function PutId(send: bool, id: int, named: bool, name: seq<byte>, tail: seq<byte>): seq<byte>
    requires |name| < 256
  {
    if send then PutVarint(true, id, PutCounted(named, name, tail)) else tail
  }

  /** An entry of the receiver's uidlist or gidlist that came with its name. */
  datatype Id = Id(id: int, name: seq<byte>)

  datatype Owner = Owner(id: int, names: seq<Id>)

  /** The id is translated when it is received, with or without a name; a name is kept. */
  function GetId(send: bool, named: bool, idMap: int -> int, prev: int, s: seq<byte>): Read<Owner> {
    if !send then Got(Owner(prev, []), s) else
      var (id, s) :- GetVarint(true, 0, s);
      var (name, s) :- GetCounted(named, s);
      Got(Owner(idMap(id), NameIf(named, id, name)), s)
  }

  function NameIf(named: bool, id: int, name: seq<byte>): seq<Id> {
    if named then [Id(id, name)] else []
  }

  lemma IdArrives(send: bool, id: int, named: bool, name: seq<byte>, idMap: int -> int, prev: int, tail: seq<byte>)
    requires |name| < 256 && 0 <= id < TWO32
    ensures GetId(send, named, idMap, prev, PutId(send, id, named, name, tail))
         == Got(Owner(if send then idMap(id) else prev, NameIf(send && named, id, name)), tail)
  {
    hide PutVarint, GetVarint, PutCounted, GetCounted;
    var s := PutCounted(named, name, tail);
    VarintField(true, id, 0, s);
    CountedField(named, name, tail);
  }

  // ---------- device numbers, link target, checksum (flist.c:634-684, 933-976, 1220-1232) ----------

  datatype Rest = Rest(major: int, minor: int, link: seq<byte>, sum: seq<byte>)

  function PutString(send: bool, data: seq<byte>, tail: seq<byte>): seq<byte> {
    if send then EncodeVarint(|data|) + (data + tail) else tail
  }

  function GetString(send: bool, s: seq<byte>): Read<seq<byte>> {
    if !send then Got([], s) else
      var (n, s) :- DecodeVarint(s);
      if n < 0 || n >= MAXPATHLEN then Overflow
      else if |s| < n then Short
      else Got(s[..n], s[n..])
  }

  lemma StringField(send: bool, data: seq<byte>, tail: seq<byte>)
    requires send ==> |data| < MAXPATHLEN
    ensures GetString(send, PutString(send, data, tail)) == Got(if send then data else [], tail)
  {
    hide EncodeVarint, DecodeVarint;
    if send {
      VarintRoundTrip(|data|, data + tail);
    }
  }

  function PutRest(o: Options, x: XFlags, e: Entry, tail: seq<byte>): seq<byte> {
    PutVarint(o.HasRdev(e.mode) && !x.bit8, e.major,
    PutVarint(o.HasRdev(e.mode), if IsDevice(e.mode) then e.minor else 0,
    PutString(o.preserveLinks && IsLnk(e.mode), e.link,
    PutBytes(o.checksums && IsReg(e.mode), e.sum, tail))))
  }

  function GetRest(o: Options, x: XFlags, l: Last, mode: int, s: seq<byte>): Read<Rest> {
    var (major, s) :- GetVarint(o.HasRdev(mode) && !x.bit8, l.major, s);
    var (minor, s) :- GetVarint(o.HasRdev(mode), 0, s);
    var (link, s) :- GetString(o.preserveLinks && IsLnk(mode), s);
    var (sum, s) :- GetBytes(o.checksums && IsReg(mode), o.csumLen, s);
    Got(Rest(major, minor, link, sum), s)
  }

  lemma RestArrives(o: Options, x: XFlags, l: Last, e: Entry, tail: seq<byte>)
    requires e.Ok(o)
    requires o.preserveDevices && IsDevice(e.mode) ==> x.bit8 == (e.major == l.major)
    requires o.HasRdev(e.mode) && !IsDevice(e.mode) ==> x.bit8
    ensures var dev := o.preserveDevices && IsDevice(e.mode);
      GetRest(o, x, l, e.mode, PutRest(o, x, e, tail))
      == Got(Rest(if dev then e.major else l.major, if dev then e.minor else 0,
                  if o.preserveLinks && IsLnk(e.mode) then e.link else [],
                  if o.checksums && IsReg(e.mode) then e.sum else []), tail)
  {
    hide PutVarint, GetVarint, PutString, GetString, PutBytes, GetBytes;
    var rdev, dev := o.HasRdev(e.mode), o.preserveDevices && IsDevice(e.mode);
    var minor := if IsDevice(e.mode) then e.minor else 0;
    var s3 := PutBytes(o.checksums && IsReg(e.mode), e.sum, tail);
    var s2 := PutString(o.preserveLinks && IsLnk(e.mode), e.link, s3);
    var s1 := PutVarint(rdev, minor, s2);
    if dev {
      VarintField(!x.bit8, e.major, l.major, s1);
    } else {
      NoVarint(e.major, l.major, s1);
    }
    if rdev {
      VarintField(true, minor, 0, s2);
    } else {
      NoVarint(minor, 0, s2);
    }
    StringField(o.preserveLinks && IsLnk(e.mode), e.link, s3);
    if o.checksums && IsReg(e.mode) {
      BytesField(true, e.sum, tail);
    } else {
      NoBytes(e.sum, o.csumLen, tail);
    }
  }

  lemma NoVarint(x: int, prev: int, tail: seq<byte>)
    ensures GetVarint(false, prev, PutVarint(false, x, tail)) == Got(prev, tail)
  {
  }

  lemma NoBytes(data: seq<byte>, n: nat, tail: seq<byte>)
    ensures GetBytes(false, n, PutBytes(false, data, tail)) == Got([], tail)
  {
  }

  // ---------- a whole entry ----------

  /** The sender: its static variables, the ids it has introduced, and where it first saw each inode. */
  datatype Sender = Sender(last: Last, users: set<int>, groups: set<int>, links: map<Inode, int>)

  /** The names of users and groups that the receiver has read, in order. */
  datatype Names = Names(users: seq<Id>, groups: seq<Id>)
  {
    function Plus(more: Names): Names {
      Names(users + more.users, groups + more.groups)
    }
  }

  const NONE_READ := Names([], [])

  /** The receiver: its static variables, the files of the current list, and the names it knows. */
  datatype Receiver = Receiver(last: Last, gidSkip: bool, files: seq<File>, names: Names)

  datatype Arrived = Arrived(attrs: Attrs, names: Names)

  datatype File = File(name: seq<byte>, attrs: Attrs, dir: DirKind, hlinked: bool, gnum: int, skipGroup: bool)

  predicate NewUser(o: Options, t: Sender, e: Entry) {
    o.preserveUid && !(e.uid == t.last.uid && t.last.name != []) && !o.numericIds && e.uid !in t.users
  }

  predicate NewGroup(o: Options, t: Sender, e: Entry) {
    o.preserveGid && !(e.gid == t.last.gid && t.last.name != []) && !o.numericIds && e.gid !in t.groups
  }

  /** flist.c:419-555. */
  function FlagsFor(o: Options, t: Sender, e: Entry): XFlags {
    var l, l1 := t.last, Common(t.last.name, e.name, 255);
    XFlags(IsDir(e.mode) && (e.dir == Content(true) || e.dir.Implied?),
           e.mode == l.mode,
           false,
           !o.preserveUid || (e.uid == l.uid && l.name != []),
           !o.preserveGid || (e.gid == l.gid && l.name != []),
           l1 > 0,
           |e.name| - l1 > 255,
           e.modtime == l.modtime,
           if IsDir(e.mode) then !e.dir.Content?
           else if o.preserveDevices && IsDevice(e.mode) then e.major == l.major else o.HasRdev(e.mode),
           e.inode != NoInode,
           NewUser(o, t, e) && o.incRecurse && o.userName(e.uid) != [],
           NewGroup(o, t, e) && o.incRecurse && o.groupName(e.gid) != [],
           e.inode != NoInode && e.inode !in t.links,
           e.nsec != 0,
           o.HasAtime(e.mode) && e.atime == l.atime,
           o.crtimes && e.crtime == e.modtime)
  }

  /** The receiver's static variables after an entry, from the stored attributes. */
  function LastAfter(o: Options, l: Last, name: seq<byte>, a: Attrs): Last {
    Last(name, a.mode, a.modtime, if o.HasAtime(a.mode) then a.atime else l.atime,
         if o.preserveUid then a.uid else l.uid, if o.preserveGid then a.gid else l.gid,
         if o.preserveDevices && IsDevice(a.mode) then a.major else l.major)
  }

  function AfterSending(o: Options, t: Sender, e: Entry, ndx: int): Sender {
    Sender(Last(e.name, e.mode, e.modtime, if o.HasAtime(e.mode) then e.atime else t.last.atime,
                if o.preserveUid then e.uid else t.last.uid, if o.preserveGid then e.gid else t.last.gid,
                if o.preserveDevices && IsDevice(e.mode) then e.major else t.last.major),
           if NewUser(o, t, e) then t.users + {e.uid} else t.users,
           if NewGroup(o, t, e) then t.groups + {e.gid} else t.groups,
           if e.inode != NoInode && e.inode !in t.links then t.links[e.inode := ndx] else t.links)
  }

  function PutAttrs(o: Options, x: XFlags, e: Entry, tail: seq<byte>): seq<byte>
    requires |o.userName(e.uid)| < 256 && |o.groupName(e.gid)| < 256
  {
    PutTimes(o, x, e,
    PutId(o.preserveUid && !x.sameUid, e.uid, x.userName, o.userName(e.uid),
    PutId(o.preserveGid && !x.sameGid, e.gid, x.groupName, o.groupName(e.gid),
    PutRest(o, x, e, tail))))
  }

  /** flist.c:557-689: a later link to a file of this very list is abbreviated to its name and the index. */
  function PutEntry(o: Options, t: Sender, e: Entry, first: int, tail: seq<byte>): seq<byte>
    requires |o.userName(e.uid)| < 256 && |o.groupName(e.gid)| < 256
  {
    PutFlags(o.varintFlags, FlagsSent(o, t, e), PutName(t.last.name, e.name, Body(o, t, e, first, tail)))
  }

  /** flist.c:840-986. */
  function GetAttrs(o: Options, x: XFlags, l: Last, s: seq<byte>): Read<Arrived> {
    var (t, s) :- GetTimes(o, x, l, s);
    var (uid, s) :- GetId(o.preserveUid && !x.sameUid, x.userName, o.uidMap, l.uid, s);
    var (gid, s) :- GetId(o.preserveGid && !x.sameGid, x.groupName, o.gidMap, l.gid, s);
    var (r, s) :- GetRest(o, x, l, t.mode, s);
    Got(Arrived(Assembled(o, t, uid.id, gid.id, r), Names(uid.names, gid.names)), s)
  }

  function Assembled(o: Options, t: Times, uid: int, gid: int, r: Rest): Attrs {
    var dev := o.preserveDevices && IsDevice(t.mode);
    Attrs(t.mode, if o.HasRdev(t.mode) then 0 else t.length, t.modtime, t.nsec,
          if o.HasAtime(t.mode) then t.atime else 0, t.crtime,
          if o.preserveUid then uid else 0, if o.preserveGid then gid else 0,
          if dev then r.major else 0, if dev then r.minor else 0, r.link, r.sum)
  }

  function DirOf(x: XFlags, mode: int): DirKind {
    if !IsDir(mode) then NoContent else if !x.bit8 then Content(x.topDir) else if x.topDir then Implied else NoContent
  }

  /** flist.c:695-1247: the attributes come from the wire or from an earlier file of this list. */
  function GetEntry(o: Options, r: Receiver, x: XFlags, first: int, s: seq<byte>): Read<Receiver> {
    var (name, s) :- GetName(x, r.last.name, s);
    var linked := x.hlinked && !x.hlinkFirst;
    var (ndx, s) :- if linked then DecodeVarint(s) else Got(first + |r.files|, s);
    if linked && !(0 <= ndx < first + |r.files|) then Overflow
    else if linked && first <= ndx then
      var a := r.files[ndx - first].attrs;
      Got(WithFile(o, r, x, name, a, ndx, r.gidSkip, NONE_READ), s)
    else
      var (got, s) :- GetAttrs(o, x, r.last, s);
      Got(WithFile(o, r, x, name, got.attrs, ndx,
                   if o.preserveGid && !x.sameGid then o.gidSkip(got.attrs.gid) else r.gidSkip, got.names), s)
  }

  function WithFile(o: Options, r: Receiver, x: XFlags, name: seq<byte>, a: Attrs, ndx: int, skip: bool, read: Names):
    Receiver
  {
    Receiver(LastAfter(o, r.last, name, a), skip,
             r.files + [File(name, a, DirOf(x, a.mode), x.hlinked, if x.hlinked then ndx else -1,
                             o.preserveGid && skip)], r.names.Plus(read))
  }

  // ---------- both ends stay in step ----------

  /** The static variables agree (ids up to translation), the received files hold what was sent, and the inode
      table points at the first entry of each group. */
  ghost predicate Mirror(o: Options, t: Sender, r: Receiver, sent: seq<Entry>, first: int) {
    var l, m := t.last, r.last;
    && m.name == l.name && m.mode == l.mode && m.modtime == l.modtime && m.atime == l.atime && m.major == l.major
    && (l.name != [] && o.preserveUid ==> m.uid == o.uidMap(l.uid))
    && (l.name != [] && o.preserveGid ==> m.gid == o.gidMap(l.gid))
    && |r.files| == |sent| && (forall i :: 0 <= i < |sent| ==> r.files[i].attrs == Stored(o, sent[i]))
    && (forall n :: n in t.links ==> 0 <= t.links[n] < first + |sent|)
    && (forall n :: n in t.links && first <= t.links[n] ==> sent[t.links[n] - first].inode == n)
  }

  /** Names of one inode share everything but the name. */
  predicate SameFile(a: Entry, b: Entry) {
    a.inode == b.inode != NoInode ==> a == b.(name := a.name)
  }

  /** The flags tell the receiver the truth about its own static variables. */
  predicate Fits(o: Options, l: Last, e: Entry, x: XFlags) {
    && x.sameTime == (e.modtime == l.modtime) && x.modNsec == (e.nsec != 0) && x.sameMode == (e.mode == l.mode)
    && x.crtimeEq == (o.crtimes && e.crtime == e.modtime)
    && x.sameAtime == (o.HasAtime(e.mode) && e.atime == l.atime)
    && (o.preserveUid && x.sameUid ==> l.uid == o.uidMap(e.uid))
    && (o.preserveGid && x.sameGid ==> l.gid == o.gidMap(e.gid))
    && (o.preserveDevices && IsDevice(e.mode) ==> x.bit8 == (e.major == l.major))
    && (o.HasRdev(e.mode) && !IsDevice(e.mode) ==> x.bit8)
  }

  lemma FlagsFit(o: Options, t: Sender, r: Receiver, sent: seq<Entry>, first: int, e: Entry)
    requires Mirror(o, t, r, sent, first)
    ensures Fits(o, r.last, e, Sent(o.varintFlags, IsDir(e.mode), FlagsFor(o, t, e)))
  {
    hide Common, ToNat, HighBits, NewUser, NewGroup, Options.HasAtime, Stored;
  }

  lemma EntryFacts(o: Options, e: Entry)
    requires o.Ok() && e.Ok(o)
    ensures |o.userName(e.uid)| < 256 && |o.groupName(e.gid)| < 256
    ensures 0 <= e.uid < TWO32 && 0 <= e.gid < TWO32
    ensures 0 < |e.name| < MAXPATHLEN
    ensures o.HasRdev(e.mode) ==> e.length == 0
    ensures IsDir(e.mode) ==> e.inode == NoInode
  {
  }

  function ReadTimes(o: Options, l: Last, e: Entry): Times {
    Times(e.length, e.modtime, e.nsec, if o.crtimes then e.crtime else 0, e.mode,
          if o.HasAtime(e.mode) then e.atime else l.atime)
  }

  function ReadRest(o: Options, l: Last, e: Entry): Rest {
    var dev := o.preserveDevices && IsDevice(e.mode);
    Rest(if dev then e.major else l.major, if dev then e.minor else 0,
         if o.preserveLinks && IsLnk(e.mode) then e.link else [], if o.checksums && IsReg(e.mode) then e.sum else [])
  }

  lemma AssembledIsStored(o: Options, l: Last, e: Entry, uid: int, gid: int)
    requires o.Ok() && e.Ok(o)
    requires o.preserveUid ==> uid == o.uidMap(e.uid)
    requires o.preserveGid ==> gid == o.gidMap(e.gid)
    ensures Assembled(o, ReadTimes(o, l, e), uid, gid, ReadRest(o, l, e)) == Stored(o, e)
  {
    EntryFacts(o, e);
  }

  lemma AttrsArrive(o: Options, l: Last, e: Entry, x: XFlags, tail: seq<byte>)
    requires o.Ok() && e.Ok(o) && Fits(o, l, e, x)
    ensures |o.userName(e.uid)| < 256 && |o.groupName(e.gid)| < 256
    ensures GetAttrs(o, x, l, PutAttrs(o, x, e, tail)) == Got(Arrived(Stored(o, e), NamesSent(o, x, e)), tail)
  {
    hide PutTimes, GetTimes, PutId, GetId, PutRest, GetRest, IsDir, IsReg, IsLnk, IsDevice, Options.HasAtime,
         Options.HasRdev, Entry.Ok, Options.Ok, Assembled, Stored, GetAttrs, ReadTimes, ReadRest, Fits, NameIf;
    EntryFacts(o, e);
    var s3 := PutRest(o, x, e, tail);
    var s2 := PutId(o.preserveGid && !x.sameGid, e.gid, x.groupName, o.groupName(e.gid), s3);
    var s1 := PutId(o.preserveUid && !x.sameUid, e.uid, x.userName, o.userName(e.uid), s2);
    var uid, gid := ReadIds(o, l, e, x, s1, s2, s3);
    ReadParts(o, l, e, x, s1, s3, tail);
    Chain(o, x, l, PutTimes(o, x, e, s1), s1, s2, s3, tail, ReadTimes(o, l, e), uid, gid, ReadRest(o, l, e));
    AssembledIsStored(o, l, e, uid.id, gid.id);
  }

  /** The names that go with the ids of an entry. */
  function NamesSent(o: Options, x: XFlags, e: Entry): Names {
    Names(NameIf(o.preserveUid && !x.sameUid && x.userName, e.uid, o.userName(e.uid)),
          NameIf(o.preserveGid && !x.sameGid && x.groupName, e.gid, o.groupName(e.gid)))
  }

  lemma ReadParts(o: Options, l: Last, e: Entry, x: XFlags, s1: seq<byte>, s3: seq<byte>, tail: seq<byte>)
    requires e.Ok(o) && Fits(o, l, e, x) && s3 == PutRest(o, x, e, tail)
    ensures GetTimes(o, x, l, PutTimes(o, x, e, s1)) == Got(ReadTimes(o, l, e), s1)
    ensures GetRest(o, x, l, ReadTimes(o, l, e).mode, s3) == Got(ReadRest(o, l, e), tail)
  {
    hide PutTimes, GetTimes, PutRest, GetRest, IsDir, IsReg, IsLnk, IsDevice, Entry.Ok;
    TimesArrive(o, x, l, e, s1);
    RestArrives(o, x, l, e, tail);
  }

  lemma ReadIds(o: Options, l: Last, e: Entry, x: XFlags, s1: seq<byte>, s2: seq<byte>, s3: seq<byte>)
    returns (uid: Owner, gid: Owner)
    requires o.Ok() && e.Ok(o) && Fits(o, l, e, x) && |o.userName(e.uid)| < 256 && |o.groupName(e.gid)| < 256
    requires s2 == PutId(o.preserveGid && !x.sameGid, e.gid, x.groupName, o.groupName(e.gid), s3)
    requires s1 == PutId(o.preserveUid && !x.sameUid, e.uid, x.userName, o.userName(e.uid), s2)
    ensures GetId(o.preserveUid && !x.sameUid, x.userName, o.uidMap, l.uid, s1) == Got(uid, s2)
    ensures GetId(o.preserveGid && !x.sameGid, x.groupName, o.gidMap, l.gid, s2) == Got(gid, s3)
    ensures o.preserveUid ==> uid.id == o.uidMap(e.uid)
    ensures o.preserveGid ==> gid.id == o.gidMap(e.gid)
    ensures Names(uid.names, gid.names) == NamesSent(o, x, e)
  {
    hide PutId, GetId, IsDir, IsReg, IsLnk, IsDevice, Entry.Ok, Options.HasAtime, Options.HasRdev;
    EntryFacts(o, e);
    var sendUid, sendGid := o.preserveUid && !x.sameUid, o.preserveGid && !x.sameGid;
    uid := Owner(if sendUid then o.uidMap(e.uid) else l.uid, NameIf(sendUid && x.userName, e.uid, o.userName(e.uid)));
    gid := Owner(if sendGid then o.gidMap(e.gid) else l.gid, NameIf(sendGid && x.groupName, e.gid, o.groupName(e.gid)));
    IdArrives(sendUid, e.uid, x.userName, o.userName(e.uid), o.uidMap, l.uid, s2);
    IdArrives(sendGid, e.gid, x.groupName, o.groupName(e.gid), o.gidMap, l.gid, s3);
  }

  lemma Chain(o: Options, x: XFlags, l: Last, s: seq<byte>, s1: seq<byte>, s2: seq<byte>, s3: seq<byte>,
              tail: seq<byte>, t: Times, uid: Owner, gid: Owner, r: Rest)
    requires GetTimes(o, x, l, s) == Got(t, s1)
    requires GetId(o.preserveUid && !x.sameUid, x.userName, o.uidMap, l.uid, s1) == Got(uid, s2)
    requires GetId(o.preserveGid && !x.sameGid, x.groupName, o.gidMap, l.gid, s2) == Got(gid, s3)
    requires GetRest(o, x, l, t.mode, s3) == Got(r, tail)
    ensures GetAttrs(o, x, l, s)
         == Got(Arrived(Assembled(o, t, uid.id, gid.id, r), Names(uid.names, gid.names)), tail)
  {
    hide GetTimes, GetId, GetRest, Assembled;
  }

  predicate Known(t: Sender, e: Entry) {
    e.inode != NoInode && e.inode in t.links
  }

  predicate Abbreviated(t: Sender, e: Entry, first: int) {
    Known(t, e) && first <= t.links[e.inode]
  }

  function FlagsSent(o: Options, t: Sender, e: Entry): XFlags {
    Sent(o.varintFlags, IsDir(e.mode), FlagsFor(o, t, e))
  }

  /** What the receiver should be after the entry: one more file, with everything that was sent. */
  function Expected(o: Options, t: Sender, r: Receiver, e: Entry, first: int): Receiver {
    var x := FlagsSent(o, t, e);
    WithFile(o, r, x, e.name, Stored(o, e), if Known(t, e) then t.links[e.inode] else first + |r.files|,
             if !Abbreviated(t, e, first) && o.preserveGid && !x.sameGid then o.gidSkip(o.gidMap(e.gid)) else r.gidSkip,
             if Abbreviated(t, e, first) then NONE_READ else NamesSent(o, x, e))
  }

  /** The flags as the field lemmas want them. */
  lemma FlagFacts(o: Options, t: Sender, e: Entry)
    requires e.Ok(o)
    ensures var x, l1 := FlagsSent(o, t, e), Common(t.last.name, e.name, 255);
      && x.sameName == (l1 > 0) && x.longName == (|e.name| - l1 > 255)
      && x.hlinked == (e.inode != NoInode) && x.hlinkFirst == (e.inode != NoInode && e.inode !in t.links)
      && DirOf(x, e.mode) == if IsDir(e.mode) then e.dir else NoContent
  {
    hide Common, ToNat, HighBits, NewUser, NewGroup, Options.HasAtime, Options.HasRdev, Entry.Ok;
  }

  lemma FlagsGo(o: Options, t: Sender, e: Entry, s: seq<byte>)
    requires o.Ok() && e.Ok(o)
    ensures var x := FlagsSent(o, t, e); GetFlags(o.varintFlags, o.safeEnd, PutFlags(o.varintFlags, x, s)) == Got(Flags(x), s)
  {
    hide Common, ToNat, HighBits, NewUser, NewGroup, Options.HasAtime, Options.HasRdev, Entry.Ok, PutFlags, GetFlags, Sent;
    FlagsArrive(o.varintFlags, o.safeEnd, IsDir(e.mode), FlagsFor(o, t, e), s);
  }

  function Body(o: Options, t: Sender, e: Entry, first: int, tail: seq<byte>): seq<byte>
    requires |o.userName(e.uid)| < 256 && |o.groupName(e.gid)| < 256
  {
    if !Known(t, e) then PutAttrs(o, FlagsSent(o, t, e), e, tail)
    else EncodeVarint(t.links[e.inode]) + if Abbreviated(t, e, first) then tail else PutAttrs(o, FlagsSent(o, t, e), e, tail)
  }

  lemma BodyArrives(o: Options, t: Sender, r: Receiver, sent: seq<Entry>, first: int, e: Entry, tail: seq<byte>)
    requires o.Ok() && e.Ok(o) && Mirror(o, t, r, sent, first) && 0 <= first && first + |sent| < 0x8000_0000
    requires Abbreviated(t, e, first) ==> SameFile(e, sent[t.links[e.inode] - first])
    ensures |o.userName(e.uid)| < 256 && |o.groupName(e.gid)| < 256
    ensures GetEntry(o, r, FlagsSent(o, t, e), first, PutName(t.last.name, e.name, Body(o, t, e, first, tail)))
         == Got(Expected(o, t, r, e, first), tail)
  {
    hide PutName, GetName, PutAttrs, GetAttrs, EncodeVarint, DecodeVarint, Stored, Entry.Ok, Options.Ok, FlagsSent,
         WithFile, Fits, NamesSent, Mirror;
    LastName(o, t, r, sent, first);
    EntryFacts(o, e);
    FlagFacts(o, t, e);
    var x, body := FlagsSent(o, t, e), Body(o, t, e, first, tail);
    NameArrives(x, t.last.name, e.name, body);
    FitsHere(o, t, r, sent, first, e);
    AttrsArrive(o, r.last, e, x, tail);
    GroupOf(o, e);
    if Known(t, e) {
      LinkTarget(o, t, r, sent, first, e);
      VarintRoundTrip(t.links[e.inode], if Abbreviated(t, e, first) then tail else PutAttrs(o, x, e, tail));
    }
  }

  /** The entry that a link points back to, and what the receiver has of it. */
  lemma LinkTarget(o: Options, t: Sender, r: Receiver, sent: seq<Entry>, first: int, e: Entry)
    requires Mirror(o, t, r, sent, first) && Known(t, e) && 0 <= first && first + |sent| < 0x8000_0000
    requires Abbreviated(t, e, first) ==> SameFile(e, sent[t.links[e.inode] - first])
    ensures 0 <= t.links[e.inode] < first + |r.files| <= 0x8000_0000 && |r.files| == |sent|
    ensures Abbreviated(t, e, first) ==> r.files[t.links[e.inode] - first].attrs == Stored(o, e)
  {
    hide Stored;
    if Abbreviated(t, e, first) {
      SameStored(o, e, sent[t.links[e.inode] - first]);
    }
  }

  /** The entry has what the previous one had. */
  predicate Repeats(o: Options, l: Last, e: Entry) {
    && l.name != [] && e.mode == l.mode && e.modtime == l.modtime && e.nsec == 0
    && (o.HasAtime(e.mode) ==> e.atime == l.atime) && (o.crtimes ==> e.crtime == e.modtime)
    && (o.preserveUid ==> e.uid == l.uid) && (o.preserveGid ==> e.gid == l.gid)
  }

  /** What repeats is not sent: of a regular file without a checksum only the length is. */
  lemma RepeatIsShort(o: Options, t: Sender, e: Entry, first: int, tail: seq<byte>)
    requires |o.userName(e.uid)| < 256 && |o.groupName(e.gid)| < 256
    requires Repeats(o, t.last, e) && IsReg(e.mode) && !o.checksums && e.inode == NoInode
    ensures Body(o, t, e, first, tail) == EncodeVarlong(e.length, 3) + tail
  {
    hide Common, ToNat, HighBits, NewUser, NewGroup, EncodeVarlong, EncodeVarint;
  }

  lemma FitsHere(o: Options, t: Sender, r: Receiver, sent: seq<Entry>, first: int, e: Entry)
    requires Mirror(o, t, r, sent, first)
    ensures Fits(o, r.last, e, FlagsSent(o, t, e))
  {
    hide Mirror, Fits, Sent, FlagsFor;
    FlagsFit(o, t, r, sent, first, e);
  }

  lemma LastName(o: Options, t: Sender, r: Receiver, sent: seq<Entry>, first: int)
    requires Mirror(o, t, r, sent, first)
    ensures r.last.name == t.last.name
  {
    hide Stored;
  }

  lemma SameStored(o: Options, a: Entry, b: Entry)
    requires a.inode == b.inode != NoInode && SameFile(a, b)
    ensures Stored(o, a) == Stored(o, b)
  {
  }

  lemma GroupOf(o: Options, e: Entry)
    ensures o.preserveGid ==> Stored(o, e).gid == o.gidMap(e.gid)
  {
  }

  /** What the receiver's new file must be. */
  predicate Faithful(o: Options, links: map<Inode, int>, e: Entry, f: File) {
    && f.name == e.name && f.attrs == Stored(o, e) && f.dir == (if IsDir(e.mode) then e.dir else NoContent)
    && f.hlinked == (e.inode != NoInode)
    && (f.hlinked ==> e.inode in links && f.gnum == links[e.inode])
  }

  lemma ExpectedIsFaithful(o: Options, t: Sender, r: Receiver, e: Entry, first: int)
    requires e.Ok(o)
    ensures |Expected(o, t, r, e, first).files| == |r.files| + 1
    ensures Expected(o, t, r, e, first).files[..|r.files|] == r.files
    ensures Faithful(o, AfterSending(o, t, e, first + |r.files|).links, e, Expected(o, t, r, e, first).files[|r.files|])
  {
    hide FlagsSent, Entry.Ok, NewUser, NewGroup, LastAfter;
    FlagFacts(o, t, e);
    assert Stored(o, e).mode == e.mode;
  }

  lemma MirrorKept(o: Options, t: Sender, r: Receiver, sent: seq<Entry>, first: int, e: Entry)
    requires e.Ok(o) && Mirror(o, t, r, sent, first) && 0 <= first
    ensures Mirror(o, AfterSending(o, t, e, first + |sent|), Expected(o, t, r, e, first), sent + [e], first)
  {
    hide FlagsSent, Entry.Ok, NewUser, NewGroup, DirOf;
  }

  /** One entry arrives: the bytes give the flags, the receiver gains exactly the file sent, and both ends
      stay in step. */
  lemma EntryArrives(o: Options, t: Sender, r: Receiver, sent: seq<Entry>, first: int, e: Entry, tail: seq<byte>)
    returns (s: seq<byte>)
    requires o.Ok() && e.Ok(o) && Mirror(o, t, r, sent, first) && 0 <= first && first + |sent| < 0x8000_0000
    requires Abbreviated(t, e, first) ==> SameFile(e, sent[t.links[e.inode] - first])
    ensures |o.userName(e.uid)| < 256 && |o.groupName(e.gid)| < 256
    ensures GetFlags(o.varintFlags, o.safeEnd, PutEntry(o, t, e, first, tail)) == Got(Flags(FlagsSent(o, t, e)), s)
    ensures GetEntry(o, r, FlagsSent(o, t, e), first, s) == Got(Expected(o, t, r, e, first), tail)
    ensures Mirror(o, AfterSending(o, t, e, first + |sent|), Expected(o, t, r, e, first), sent + [e], first)
  {
    hide FlagsSent, Entry.Ok, Options.Ok, GetFlags, PutFlags, GetEntry, Expected, PutName, Body;
    BodyArrives(o, t, r, sent, first, e, tail);
    s := PutName(t.last.name, e.name, Body(o, t, e, first, tail));
    FlagsGo(o, t, e, s);
    MirrorKept(o, t, r, sent, first, e);
  }
}
