/** flist.c: a whole file list, from send_file_list to recv_file_list. */
module FileListRun {
  import opened Bytes
  import opened Codec
  import opened EntryFlags
  import opened FileEntry
  import opened FileList

  /** write_end_of_flist, flist.c:2129-2140: the marker, with the sender's error flags where they can be sent. */
  function PutEnd(o: Options, sendError: bool, err: int, tail: seq<byte>): seq<byte> {
    if o.varintFlags then EncodeVarint(0) + (EncodeVarint(if sendError then err else 0) + tail)
    else if sendError then [0x04, 0x10] + (EncodeVarint(err) + tail)
    else [0] + tail
  }

  lemma EndArrives(o: Options, sendError: bool, err: int, tail: seq<byte>)
    requires IsInt32(err) && (sendError ==> o.varintFlags || o.safeEnd)
    ensures GetFlags(o.varintFlags, o.safeEnd, PutEnd(o, sendError, err, tail))
         == Got(EndOfList(if sendError then err else 0), tail)
  {
    hide EncodeVarint, DecodeVarint, FromNat;
    VarintRoundTrip(0, EncodeVarint(if sendError then err else 0) + tail);
    VarintRoundTrip(if sendError then err else 0, tail);
    if !o.varintFlags && sendError {
      var s := PutEnd(o, sendError, err, tail);
      assert s[0] == 0x04 && s[1] == 0x10 && s[2..] == EncodeVarint(err) + tail;
      FourIsExtended();
    }
  }

  lemma FourIsExtended()
    ensures FromNat(4).extended
  {
    hide FromNat;
    var y := XFlags(false, false, true, false, false, false, false, false,
                    false, false, false, false, false, false, false, false);
    assert ToNat(y) == 4;
    hide ToNat;
    FlagsRoundTrip(y);
  }

  ghost predicate AllOk(o: Options, es: seq<Entry>) {
    o.Ok() && forall e :: e in es ==> e.Ok(o)
  }

  /** send_file_list: every entry, then the marker. `ndx` is the list index of the first. */
  ghost function PutList(o: Options, t: Sender, es: seq<Entry>, ndx: int, first: int,
                         sendError: bool, err: int, tail: seq<byte>): seq<byte>
    requires AllOk(o, es)
    decreases |es|
  {
    if es == [] then PutEnd(o, sendError, err, tail) else
      EntryFacts(o, es[0]);
      PutEntry(o, t, es[0], first,
               PutList(o, AfterSending(o, t, es[0], ndx), es[1..], ndx + 1, first, sendError, err, tail))
  }

  function AfterAll(o: Options, t: Sender, es: seq<Entry>, ndx: int): Sender
    decreases |es|
  {
    if es == [] then t else AfterAll(o, AfterSending(o, t, es[0], ndx), es[1..], ndx + 1)
  }

  datatype Received = Received(r: Receiver, ioError: int)

  // ---------- reading consumes bytes ----------

  predicate Shrinks<T>(s: seq<byte>, got: Read<T>) {
    got.Got? ==> |got.rest| <= |s|
  }

  lemma NumbersShrink(s: seq<byte>)
    ensures Shrinks(s, DecodeInt(s)) && Shrinks(s, DecodeVarint(s))
    ensures Shrinks(s, DecodeVarlong(s, 3)) && Shrinks(s, DecodeVarlong(s, 4))
    ensures DecodeVarint(s).Got? ==> |DecodeVarint(s).rest| < |s|
  {
    hide Word, AsSigned;
  }

  lemma FlagsShrink(o: Options, s: seq<byte>)
    ensures var g := GetFlags(o.varintFlags, o.safeEnd, s); g.Got? ==> |g.rest| < |s|
  {
    hide DecodeVarint, FromNat;
    NumbersShrink(s);
    if o.varintFlags {
      if DecodeVarint(s).Got? {
        NumbersShrink(DecodeVarint(s).rest);
      }
    } else if |s| >= 2 {
      NumbersShrink(s[2..]);
    }
  }

  lemma FieldsShrink(o: Options, send: bool, prev: int, n: nat, s: seq<byte>)
    ensures Shrinks(s, GetVarlong(send, prev, s)) && Shrinks(s, GetVarint(send, prev, s))
    ensures Shrinks(s, GetMode(o, send, prev, s)) && Shrinks(s, GetCounted(send, s))
    ensures Shrinks(s, GetString(send, s)) && Shrinks(s, GetBytes(send, n, s)) && Shrinks(s, GetBytes1(s))
  {
    hide DecodeInt, DecodeVarint, DecodeVarlong, KnownType;
    NumbersShrink(s);
  }

  lemma TimesShrink(o: Options, x: XFlags, l: Last, s: seq<byte>)
    ensures Shrinks(s, GetTimes(o, x, l, s))
  {
    hide DecodeVarlong, GetVarlong, GetVarint, GetMode, Options.HasAtime;
    NumbersShrink(s);
    forall send: bool, prev: int, s: seq<byte>
      ensures Shrinks(s, GetVarlong(send, prev, s)) && Shrinks(s, GetVarint(send, prev, s))
      ensures Shrinks(s, GetMode(o, send, prev, s))
    {
      FieldsShrink(o, send, prev, 0, s);
    }
  }

  lemma RestShrinks(o: Options, x: XFlags, l: Last, mode: int, s: seq<byte>)
    ensures Shrinks(s, GetRest(o, x, l, mode, s))
  {
    hide GetVarint, GetString, GetBytes, IsReg, IsLnk, IsDevice, Options.HasRdev;
    forall send: bool, prev: int, s: seq<byte> ensures Shrinks(s, GetVarint(send, prev, s)) {
      FieldsShrink(o, send, prev, 0, s);
    }
    forall send: bool, s: seq<byte> ensures Shrinks(s, GetString(send, s)) {
      FieldsShrink(o, send, 0, 0, s);
    }
    forall send: bool, n: nat, s: seq<byte> ensures Shrinks(s, GetBytes(send, n, s)) {
      FieldsShrink(o, send, 0, n, s);
    }
  }

  lemma IdShrinks(o: Options, send: bool, named: bool, idMap: int -> int, prev: int, s: seq<byte>)
    ensures Shrinks(s, GetId(send, named, idMap, prev, s))
  {
    hide GetVarint, GetCounted;
    FieldsShrink(o, true, 0, 0, s);
    forall s: seq<byte> ensures Shrinks(s, GetCounted(named, s)) {
      FieldsShrink(o, named, 0, 0, s);
    }
  }

  lemma AttrsShrink(o: Options, x: XFlags, l: Last, s: seq<byte>)
    ensures Shrinks(s, GetAttrs(o, x, l, s))
  {
    hide GetTimes, GetId, GetRest, Assembled;
    TimesShrink(o, x, l, s);
    forall send: bool, named: bool, idMap: int -> int, prev: int, s: seq<byte>
      ensures Shrinks(s, GetId(send, named, idMap, prev, s))
    {
      IdShrinks(o, send, named, idMap, prev, s);
    }
    forall mode: int, s: seq<byte> ensures Shrinks(s, GetRest(o, x, l, mode, s)) {
      RestShrinks(o, x, l, mode, s);
    }
  }

  lemma EntryShrinks(o: Options, r: Receiver, x: XFlags, first: int, s: seq<byte>)
    ensures Shrinks(s, GetEntry(o, r, x, first, s))
  {
    hide GetAttrs, DecodeVarint, GetBytes, GetBytes1, WithFile;
    forall s: seq<byte>
      ensures Shrinks(s, DecodeVarint(s)) && Shrinks(s, GetBytes(x.sameName, 1, s)) && Shrinks(s, GetBytes1(s))
      ensures Shrinks(s, GetAttrs(o, x, r.last, s))
    {
      NumbersShrink(s);
      FieldsShrink(o, x.sameName, 0, 1, s);
      AttrsShrink(o, x, r.last, s);
    }
  }

  // ---------- recv_file_list, flist.c:2668-2723 ----------

  /** Entries until an end marker; a marker the options do not allow is a protocol error. */
  function GetList(o: Options, r: Receiver, first: int, s: seq<byte>): Read<Received>
    decreases |s|
  {
    FlagsShrink(o, s);
    var (head, s1) :- GetFlags(o.varintFlags, o.safeEnd, s);
    match head
    case EndOfList(err) => Got(Received(r, err), s1)
    case InvalidFlag => Overflow
    case Flags(x) =>
      EntryShrinks(o, r, x, first, s1);
      var (r1, s2) :- GetEntry(o, r, x, first, s1);
      GetList(o, r1, first, s2)
  }

  // ---------- what any bytes at all can lead to ----------

  /** A known file type, or no type where the static variable still had none or a missing argument is meant. */
  predicate TypeKnown(mode: int) {
    KnownType(mode) || mode == 0
  }

  predicate SaneAttrs(a: Attrs) {
    TypeKnown(a.mode) && 0 <= a.length && 0 <= a.nsec <= MAX_WIRE_NSEC && |a.link| < MAXPATHLEN
  }

  ghost predicate Sane(r: Receiver, first: int) {
    && TypeKnown(r.last.mode)
    && forall i :: 0 <= i < |r.files| ==>
         && SaneAttrs(r.files[i].attrs) && |r.files[i].name| < MAXPATHLEN
         && (r.files[i].hlinked ==> 0 <= r.files[i].gnum <= first + i)
  }

  lemma NameSane(x: XFlags, last: seq<byte>, s: seq<byte>)
    ensures var g := GetName(x, last, s); g.Got? ==> |g.value| < MAXPATHLEN
  {
    hide DecodeVarint;
  }

  lemma VarintSane(send: bool, s: seq<byte>)
    ensures var g := GetVarint(send, 0, s); g.Got? ==> g.value >= 0
  {
    hide DecodeVarint;
  }

  lemma TimesSane(o: Options, x: XFlags, l: Last, s: seq<byte>)
    requires TypeKnown(l.mode)
    ensures var g := GetTimes(o, x, l, s);
      g.Got? ==> TypeKnown(g.value.mode) && 0 <= g.value.length && 0 <= g.value.nsec <= MAX_WIRE_NSEC
  {
    hide DecodeVarlong, GetVarlong, GetVarint, Options.HasAtime, DecodeInt, KnownType;
    forall s: seq<byte> ensures var g := GetVarint(x.modNsec, 0, s); g.Got? ==> g.value >= 0 {
      VarintSane(x.modNsec, s);
    }
  }

  lemma RestSane(o: Options, x: XFlags, l: Last, mode: int, s: seq<byte>)
    ensures var g := GetRest(o, x, l, mode, s); g.Got? ==> |g.value.link| < MAXPATHLEN
  {
    hide GetVarint, GetBytes, DecodeVarint, IsReg, IsLnk, IsDevice, Options.HasRdev;
  }

  lemma AttrsSane(o: Options, x: XFlags, l: Last, s: seq<byte>)
    requires TypeKnown(l.mode)
    ensures var g := GetAttrs(o, x, l, s); g.Got? ==> SaneAttrs(g.value.attrs)
  {
    hide GetTimes, GetId, GetRest, TypeKnown;
    TimesSane(o, x, l, s);
    forall mode: int, s: seq<byte>
      ensures var g := GetRest(o, x, l, mode, s); g.Got? ==> |g.value.link| < MAXPATHLEN
    {
      RestSane(o, x, l, mode, s);
    }
  }

  lemma EntrySane(o: Options, r: Receiver, x: XFlags, first: int, s: seq<byte>)
    requires Sane(r, first) && 0 <= first
    ensures var g := GetEntry(o, r, x, first, s); g.Got? ==> Sane(g.value, first)
  {
    hide GetName, GetAttrs, DecodeVarint, SaneAttrs, TypeKnown, DirOf, Names.Plus;
    NameSane(x, r.last.name, s);
    forall s: seq<byte> ensures var g := GetAttrs(o, x, r.last, s); g.Got? ==> SaneAttrs(g.value.attrs) {
      AttrsSane(o, x, r.last, s);
    }
    forall a: Attrs ensures SaneAttrs(a) ==> TypeKnown(a.mode) {
      ModeOf(a);
    }
  }

  lemma ModeOf(a: Attrs)
    ensures SaneAttrs(a) ==> TypeKnown(a.mode)
  {
  }

  /** Whatever bytes arrive, the list that is built from them is in order: names and link targets of legal length, types
      that exist, times in range, and hard-link numbers that point back. */
  lemma {:induction false} ListSane(o: Options, r: Receiver, first: int, s: seq<byte>)
    requires Sane(r, first) && 0 <= first
    ensures var g := GetList(o, r, first, s); g.Got? ==> Sane(g.value.r, first)
    decreases |s|
  {
    hide GetFlags, GetEntry, Sane;
    FlagsShrink(o, s);
    var head := GetFlags(o.varintFlags, o.safeEnd, s);
    if head.Got? && head.value.Flags? {
      EntryShrinks(o, r, head.value.x, first, head.rest);
      EntrySane(o, r, head.value.x, first, head.rest);
      var entry := GetEntry(o, r, head.value.x, first, head.rest);
      if entry.Got? {
        ListSane(o, entry.value, first, entry.rest);
      }
    }
  }

  /** Every file is what was sent, and the hard-link numbers are the indices of the table. */
  ghost predicate Delivered(o: Options, t: Sender, r: Receiver, sent: seq<Entry>) {
    |r.files| == |sent| && forall i :: 0 <= i < |sent| ==> Faithful(o, t.links, sent[i], r.files[i])
  }

  ghost predicate OneIndexEach(links: map<Inode, int>) {
    forall m, n :: m in links && n in links && links[m] == links[n] ==> m == n
  }

  ghost predicate GroupsAgree(es: seq<Entry>) {
    forall i, j :: 0 <= i < |es| && 0 <= j < |es| ==> SameFile(es[i], es[j])
  }

  lemma DeliveredKept(o: Options, t: Sender, r: Receiver, sent: seq<Entry>, first: int, e: Entry)
    requires e.Ok(o) && Delivered(o, t, r, sent)
    ensures Delivered(o, AfterSending(o, t, e, first + |sent|), Expected(o, t, r, e, first), sent + [e])
  {
    hide Expected, Entry.Ok, NewUser, NewGroup, Stored;
    ExpectedIsFaithful(o, t, r, e, first);
    var r1 := Expected(o, t, r, e, first);
    forall i | 0 <= i < |sent| ensures r1.files[i] == r.files[i] {
      assert r1.files[..|r.files|][i] == r.files[i];
    }
  }

  lemma OneIndexKept(o: Options, t: Sender, r: Receiver, sent: seq<Entry>, first: int, e: Entry)
    requires Mirror(o, t, r, sent, first) && OneIndexEach(t.links)
    ensures OneIndexEach(AfterSending(o, t, e, first + |sent|).links)
  {
    hide NewUser, NewGroup, Stored;
  }

  /** The receiver after a whole list. */
  function ExpectedAll(o: Options, t: Sender, r: Receiver, es: seq<Entry>, first: int): Receiver
    decreases |es|
  {
    if es == [] then r
    else ExpectedAll(o, AfterSending(o, t, es[0], first + |r.files|), Expected(o, t, r, es[0], first), es[1..], first)
  }

  /** A list that is sent is the list that is received, whatever bytes follow it. */
  lemma {:induction false} ListArrives(o: Options, t: Sender, r: Receiver, sent: seq<Entry>, first: int, es: seq<Entry>,
                                       sendError: bool, err: int, tail: seq<byte>)
    requires AllOk(o, es) && GroupsAgree(sent + es)
    requires Mirror(o, t, r, sent, first) && Delivered(o, t, r, sent) && OneIndexEach(t.links)
    requires 0 <= first && first + |sent| + |es| <= 0x8000_0000
    requires IsInt32(err) && (sendError ==> o.varintFlags || o.safeEnd)
    ensures GetList(o, r, first, PutList(o, t, es, first + |sent|, first, sendError, err, tail))
         == Got(Received(ExpectedAll(o, t, r, es, first), if sendError then err else 0), tail)
    ensures var t1, r1 := AfterAll(o, t, es, first + |sent|), ExpectedAll(o, t, r, es, first);
      Mirror(o, t1, r1, sent + es, first) && Delivered(o, t1, r1, sent + es) && OneIndexEach(t1.links)
    decreases |es|
  {
    hide Mirror, Delivered, OneIndexEach, GetFlags, GetEntry, PutEntry, PutEnd, Options.Ok, Entry.Ok, Expected,
         AfterSending, FlagsSent, SameFile;
    if es == [] {
      assert sent + es == sent;
      EndArrives(o, sendError, err, tail);
    } else {
      var e, ndx := es[0], first + |sent|;
      assert |r.files| == |sent| by {
        Counted(o, t, r, sent);
      }
      LinkAgrees(o, t, r, sent, first, es);
      var t1 := AfterSending(o, t, e, ndx);
      EntryFacts(o, e);
      var more := PutList(o, t1, es[1..], ndx + 1, first, sendError, err, tail);
      var s := EntryArrives(o, t, r, sent, first, e, more);
      DeliveredKept(o, t, r, sent, first, e);
      OneIndexKept(o, t, r, sent, first, e);
      assert sent + [e] + es[1..] == sent + es;
      ListArrives(o, t1, Expected(o, t, r, e, first), sent + [e], first, es[1..], sendError, err, tail);
    }
  }

  lemma Counted(o: Options, t: Sender, r: Receiver, sent: seq<Entry>)
    requires Delivered(o, t, r, sent)
    ensures |r.files| == |sent|
  {
  }

  lemma LinkAgrees(o: Options, t: Sender, r: Receiver, sent: seq<Entry>, first: int, es: seq<Entry>)
    requires es != [] && GroupsAgree(sent + es) && Mirror(o, t, r, sent, first)
    ensures Abbreviated(t, es[0], first) ==> SameFile(es[0], sent[t.links[es[0].inode] - first])
  {
    hide SameFile, Stored;
    if Abbreviated(t, es[0], first) {
      var k := t.links[es[0].inode] - first;
      assert (sent + es)[|sent|] == es[0] && (sent + es)[k] == sent[k];
    }
  }

  // ---------- the skip-group flag ----------

  /** Whether the receiver may not give a file to the group of this entry. */
  predicate Skipped(o: Options, gid: int) {
    o.preserveGid && o.gidSkip(o.gidMap(gid))
  }

  ghost predicate SkipRight(o: Options, r: Receiver, sent: seq<Entry>) {
    |r.files| == |sent| && forall i :: 0 <= i < |sent| ==> r.files[i].skipGroup == Skipped(o, sent[i].gid)
  }

  /** The static flags variable tracks the previous entry's group. */
  predicate FlagTracks(o: Options, t: Sender, r: Receiver) {
    && (r.files != [] ==> t.last.name != [])
    && (t.last.name != [] && o.preserveGid ==> r.gidSkip == o.gidSkip(o.gidMap(t.last.gid)))
  }

  /** No abbreviated entry follows an entry whose group is treated differently. */
  predicate NoStale(o: Options, t: Sender, es: seq<Entry>, ndx: int, first: int)
    decreases |es|
  {
    es == [] || (
      && (Abbreviated(t, es[0], first) ==> Skipped(o, t.last.gid) == Skipped(o, es[0].gid))
      && NoStale(o, AfterSending(o, t, es[0], ndx), es[1..], ndx + 1, first))
  }

  lemma SkipStep(o: Options, t: Sender, r: Receiver, sent: seq<Entry>, first: int, e: Entry)
    requires e.Ok(o) && Mirror(o, t, r, sent, first) && SkipRight(o, r, sent) && FlagTracks(o, t, r)
    ensures var t1, r1 := AfterSending(o, t, e, first + |sent|), Expected(o, t, r, e, first);
      var fine := Abbreviated(t, e, first) ==> Skipped(o, t.last.gid) == Skipped(o, e.gid);
      && SkipRight(o, r1, sent + [e]) == fine
      && (fine ==> FlagTracks(o, t1, r1))
  {
    hide NewUser, NewGroup, DirOf, LastAfter, Stored, FlagsSent;
    var r1 := Expected(o, t, r, e, first);
    SameGroup(o, t, e);
    assert forall i :: 0 <= i < |sent| ==> r1.files[i] == r.files[i] && (sent + [e])[i] == sent[i];
    assert SkipRight(o, r1, sent + [e]) == (r1.files[|sent|].skipGroup == Skipped(o, e.gid)) by {
      assert (sent + [e])[|sent|] == e;
    }
    EntryFits(o, e);
  }

  lemma SameGroup(o: Options, t: Sender, e: Entry)
    ensures o.preserveGid ==> FlagsSent(o, t, e).sameGid == (e.gid == t.last.gid && t.last.name != [])
  {
    hide Common, ToNat, HighBits, NewUser, NewGroup, Options.HasAtime, Options.HasRdev;
  }

  lemma EntryFits(o: Options, e: Entry)
    requires e.Ok(o)
    ensures e.name != []
  {
  }

  lemma {:induction false} OnceWrong(o: Options, t: Sender, r: Receiver, sent: seq<Entry>, es: seq<Entry>, first: int)
    requires |r.files| == |sent| && !SkipRight(o, r, sent)
    ensures !SkipRight(o, ExpectedAll(o, t, r, es, first), sent + es)
    decreases |es|
  {
    hide Skipped, Stored, FlagsSent, DirOf, LastAfter, AfterSending;
    if es == [] {
      assert sent + es == sent;
    } else {
      var r1, more := Expected(o, t, r, es[0], first), sent + [es[0]];
      var i :| 0 <= i < |sent| && r.files[i].skipGroup != Skipped(o, sent[i].gid);
      assert r1.files[i] == r.files[i] && more[i] == sent[i];
      assert more + es[1..] == sent + es;
      OnceWrong(o, AfterSending(o, t, es[0], first + |r.files|), r1, more, es[1..], first);
    }
  }

  /** Every file's skip-group flag is its own group's exactly when no abbreviated entry follows an entry
      whose group is treated differently. */
  lemma {:induction false} SkipGroups(o: Options, t: Sender, r: Receiver, sent: seq<Entry>, es: seq<Entry>, first: int)
    requires AllOk(o, es) && 0 <= first
    requires Mirror(o, t, r, sent, first) && SkipRight(o, r, sent) && FlagTracks(o, t, r)
    ensures SkipRight(o, ExpectedAll(o, t, r, es, first), sent + es) == NoStale(o, t, es, first + |sent|, first)
    decreases |es|
  {
    hide Skipped, SkipRight, Mirror, Expected, AfterSending, Entry.Ok, Options.Ok, FlagTracks, Abbreviated;
    if es == [] {
      assert sent + es == sent;
    } else {
      var e := es[0];
      var t1, r1 := AfterSending(o, t, e, first + |sent|), Expected(o, t, r, e, first);
      SkipStep(o, t, r, sent, first, e);
      SameCount(o, r, sent);
      assert sent + [e] + es[1..] == sent + es;
      MirrorKept(o, t, r, sent, first, e);
      if SkipRight(o, r1, sent + [e]) {
        SkipGroups(o, t1, r1, sent + [e], es[1..], first);
      } else {
        OneMoreFile(o, t, r, e, first);
        OnceWrong(o, t1, r1, sent + [e], es[1..], first);
      }
    }
  }

  lemma SameCount(o: Options, r: Receiver, sent: seq<Entry>)
    requires SkipRight(o, r, sent)
    ensures |r.files| == |sent|
  {
  }

  lemma OneMoreFile(o: Options, t: Sender, r: Receiver, e: Entry, first: int)
    ensures |Expected(o, t, r, e, first).files| == |r.files| + 1
  {
    hide FlagsSent, Stored, LastAfter, DirOf;
  }

  const NO_NAMES: int -> seq<byte> := _ => []
  const SAME_ID: int -> int := id => id
  const SKIP_ONE: int -> bool := gid => gid == 1
  const GROUPS_ONLY := Options(31, true, true, true, false, true, true, false, false, false, false, false, false, 0, false,
                               NO_NAMES, NO_NAMES, SAME_ID, SAME_ID, SKIP_ONE)
  const LINKED := Entry([97], 0x8000, 0, 0, 0, 0, 0, 0, 1, 0, 0, [], [], NoContent, Inode(1, 1))
  const OTHER := Entry([98], 0x8000, 0, 0, 0, 0, 0, 0, 2, 0, 0, [], [], NoContent, NoInode)
  const BEFORE := Sender(START, {}, {}, map[])
  const STALE := [LINKED, OTHER, LINKED.(name := [99])]

  lemma StaleIsOk()
    ensures AllOk(GROUPS_ONLY, STALE) && GroupsAgree(STALE)
  {
  }

  lemma StaleIsStale()
    ensures !NoStale(GROUPS_ONLY, BEFORE, STALE, 0, 0)
  {
    var o := GROUPS_ONLY;
    var t1 := AfterSending(o, BEFORE, LINKED, 0);
    var t2 := AfterSending(o, t1, OTHER, 1);
    assert STALE[1..] == [OTHER, STALE[2]] && STALE[1..][1..] == [STALE[2]];
    assert !NoStale(o, t2, [STALE[2]], 2, 0);
    assert !NoStale(o, t1, STALE[1..], 1, 0);
  }

  lemma StartMirrors(o: Options)
    ensures var r := Receiver(START, false, [], NONE_READ);
      Mirror(o, BEFORE, r, [], 0) && SkipRight(o, r, []) && FlagTracks(o, BEFORE, r)
  {
  }

  /** A second name of a file whose group is skipped, sent right after a file of another group, is stored as
      if its group could be set. */
  lemma StaleExample()
    ensures AllOk(GROUPS_ONLY, STALE) && GroupsAgree(STALE)
    ensures !SkipRight(GROUPS_ONLY, ExpectedAll(GROUPS_ONLY, BEFORE, Receiver(START, false, [], NONE_READ), STALE, 0), STALE)
  {
    hide AllOk, GroupsAgree, NoStale, Mirror, SkipRight, FlagTracks, ExpectedAll;
    StaleIsOk();
    StaleIsStale();
    StartMirrors(GROUPS_ONLY);
    SkipGroups(GROUPS_ONLY, BEFORE, Receiver(START, false, [], NONE_READ), [], STALE, 0);
    assert [] + STALE == STALE;
  }

  // ---------- list after list ----------

  /** The start index of the list after one of n entries: flist_new leaves one index for its directory. */
  function After(first: int, n: nat): int {
    first + n + 1
  }

  /** Room for all the indices. */
  function Span(lists: seq<seq<Entry>>): nat {
    if lists == [] then 0 else |lists[0]| + 1 + Span(lists[1..])
  }

  ghost predicate ListsOk(o: Options, lists: seq<seq<Entry>>) {
    forall k :: 0 <= k < |lists| ==> AllOk(o, lists[k]) && GroupsAgree(lists[k])
  }

  /** Incremental lists, one after the other, with the static variables carried over. */
  ghost function PutLists(o: Options, t: Sender, lists: seq<seq<Entry>>, first: int, sendError: bool, err: int,
                          tail: seq<byte>): seq<byte>
    requires ListsOk(o, lists)
    decreases |lists|
  {
    if lists == [] then tail else
      assert AllOk(o, lists[0]);
      PutList(o, t, lists[0], first, first, sendError, err,
              PutLists(o, AfterAll(o, t, lists[0], first), lists[1..], After(first, |lists[0]|), sendError, err, tail))
  }

  function EndSender(o: Options, t: Sender, lists: seq<seq<Entry>>, first: int): Sender
    decreases |lists|
  {
    if lists == [] then t
    else EndSender(o, AfterAll(o, t, lists[0], first), lists[1..], After(first, |lists[0]|))
  }

  function EndReceiver(o: Options, t: Sender, r: Receiver, lists: seq<seq<Entry>>, first: int): Receiver
    decreases |lists|
  {
    if lists == [] then r
    else EndReceiver(o, AfterAll(o, t, lists[0], first), ExpectedAll(o, t, r.(files := []), lists[0], first),
                     lists[1..], After(first, |lists[0]|))
  }

  /** The files of every list, and the names of their owners and groups. */
  datatype Lists = Lists(all: seq<seq<File>>, names: Names)

  /** n lists, each starting with no files. */
  function GetLists(o: Options, r: Receiver, first: int, n: nat, s: seq<byte>): Read<Lists>
    decreases n
  {
    if n == 0 then Got(Lists([], r.names), s) else
      var (got, s1) :- GetList(o, r.(files := []), first, s);
      var (more, s2) :- GetLists(o, got.r, After(first, |got.r.files|), n - 1, s1);
      Got(Lists([got.r.files] + more.all, more.names), s2)
  }

  ghost predicate AllFaithful(o: Options, links: map<Inode, int>, es: seq<Entry>, fs: seq<File>) {
    |fs| == |es| && forall i :: 0 <= i < |es| ==> Faithful(o, links, es[i], fs[i])
  }

  /** The table of inodes only grows. */
  predicate Grows(a: map<Inode, int>, b: map<Inode, int>) {
    forall n :: n in a ==> n in b && b[n] == a[n]
  }

  lemma {:induction false} ListGrows(o: Options, t: Sender, es: seq<Entry>, ndx: int)
    ensures Grows(t.links, AfterAll(o, t, es, ndx).links)
    decreases |es|
  {
    hide NewUser, NewGroup;
    if es != [] {
      ListGrows(o, AfterSending(o, t, es[0], ndx), es[1..], ndx + 1);
    }
  }

  lemma {:induction false} ListsGrow(o: Options, t: Sender, lists: seq<seq<Entry>>, first: int)
    ensures Grows(t.links, EndSender(o, t, lists, first).links)
    decreases |lists|
  {
    hide AfterAll;
    if lists != [] {
      ListGrows(o, t, lists[0], first);
      ListsGrow(o, AfterAll(o, t, lists[0], first), lists[1..], After(first, |lists[0]|));
    }
  }

  lemma FaithfulStill(o: Options, a: map<Inode, int>, b: map<Inode, int>, es: seq<Entry>, fs: seq<File>)
    requires AllFaithful(o, a, es, fs) && Grows(a, b)
    ensures AllFaithful(o, b, es, fs)
  {
    hide Stored, IsDir;
  }

  /** Both ends are ready for the next list. */
  lemma NextList(o: Options, t: Sender, r: Receiver, sent: seq<Entry>, first: int, next: int)
    requires Mirror(o, t, r, sent, first) && first + |sent| <= next
    ensures Mirror(o, t, r.(files := []), [], next) && Delivered(o, t, r.(files := []), [])
  {
    hide Stored;
  }

  lemma {:induction false} ListsArrive(o: Options, t: Sender, r: Receiver, lists: seq<seq<Entry>>, first: int,
                                       sendError: bool, err: int, tail: seq<byte>)
    returns (all: seq<seq<File>>)
    requires ListsOk(o, lists) && Mirror(o, t, r.(files := []), [], first) && OneIndexEach(t.links)
    requires 0 <= first && first + Span(lists) <= 0x8000_0000
    requires IsInt32(err) && (sendError ==> o.varintFlags || o.safeEnd)
    ensures GetLists(o, r, first, |lists|, PutLists(o, t, lists, first, sendError, err, tail))
         == Got(Lists(all, EndReceiver(o, t, r, lists, first).names), tail)
    ensures OneIndexEach(EndSender(o, t, lists, first).links)
    ensures |all| == |lists| && forall k :: 0 <= k < |lists| ==>
      AllFaithful(o, EndSender(o, t, lists, first).links, lists[k], all[k])
    decreases |lists|
  {
    hide Mirror, OneIndexEach, Delivered, AllOk, GroupsAgree, GetList, PutList, AfterAll, ExpectedAll, AllFaithful, Grows;
    if lists == [] {
      all := [];
    } else {
      var es, r0 := lists[0], r.(files := []);
      var t1, r1, next := AfterAll(o, t, es, first), ExpectedAll(o, t, r0, es, first), After(first, |es|);
      var more := PutLists(o, t1, lists[1..], next, sendError, err, tail);
      assert AllOk(o, es) && GroupsAgree(es);
      NothingSent(o, t, r0, first);
      assert [] + es == es;
      ListArrives(o, t, r0, [], first, es, sendError, err, more);
      Counted(o, t1, r1, es);
      NextList(o, t1, r1, es, first, next);
      var rest := ListsArrive(o, t1, r1, lists[1..], next, sendError, err, tail);
      all := [r1.files] + rest;
      var links := EndSender(o, t, lists, first).links;
      ListsGrow(o, t1, lists[1..], next);
      AreFaithful(o, t1, r1, es);
      FaithfulStill(o, t1.links, links, es, r1.files);
      forall k | 0 <= k < |lists| ensures AllFaithful(o, links, lists[k], all[k]) {
        if k > 0 {
          assert lists[1..][k - 1] == lists[k] && rest[k - 1] == all[k];
        }
      }
    }
  }

  /** Two received files, of one list or of two, are one hard-link group exactly when the sender's inodes are the same. */
  lemma GroupsArrive(o: Options, links: map<Inode, int>, es: seq<Entry>, fs: seq<File>, i: nat,
                     more: seq<Entry>, gs: seq<File>, j: nat)
    requires AllFaithful(o, links, es, fs) && AllFaithful(o, links, more, gs) && OneIndexEach(links)
    requires i < |es| && j < |more| && es[i].inode != NoInode && more[j].inode != NoInode
    ensures fs[i].hlinked && gs[j].hlinked
    ensures fs[i].gnum == gs[j].gnum <==> es[i].inode == more[j].inode
  {
    hide Stored, IsDir;
    assert Faithful(o, links, es[i], fs[i]) && Faithful(o, links, more[j], gs[j]);
  }

  lemma NothingSent(o: Options, t: Sender, r: Receiver, first: int)
    requires Mirror(o, t, r, [], first)
    ensures Delivered(o, t, r, []) && |r.files| == 0
  {
    hide Stored;
  }

  lemma AreFaithful(o: Options, t: Sender, r: Receiver, sent: seq<Entry>)
    requires Delivered(o, t, r, sent)
    ensures AllFaithful(o, t.links, sent, r.files)
  {
    hide Faithful;
  }

  // ---------- the two loops ----------

  class Incoming {
    var state: Receiver
    var input: seq<byte>

    constructor (state: Receiver, input: seq<byte>)
      ensures this.state == state && this.input == input
    {
      this.state, this.input := state, input;
    }

    /** recv_file_list, flist.c:2668-2694: entries until the end marker. */
    method RecvFileList(o: Options, first: int) returns (err: Read<int>)
      modifies this
      ensures var got := GetList(o, old(state), first, old(input));
        if got.Got? then err == Got(got.value.ioError, got.rest) && state == got.value.r && input == got.rest
        else err == got.PropagateFailure()
    {
      hide GetFlags, GetEntry;
      while true
        invariant GetList(o, state, first, input) == GetList(o, old(state), first, old(input))
        decreases |input|
      {
        FlagsShrink(o, input);
        var head := GetFlags(o.varintFlags, o.safeEnd, input);
        if !head.Got? {
          return head.PropagateFailure();
        }
        input := head.rest;
        if head.value.EndOfList? {
          return Got(head.value.ioError, input);
        } else if head.value.InvalidFlag? {
          return Overflow;
        }
        EntryShrinks(o, state, head.value.x, first, input);
        var entry := GetEntry(o, state, head.value.x, first, input);
        if !entry.Got? {
          return entry.PropagateFailure();
        }
        state, input := entry.value, entry.rest;
      }
    }
  }
}
