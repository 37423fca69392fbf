/** flist.c:478-497, 611-633, 909-931; uidlist.c:340-371, 416-456: the names of owners and groups in incremental lists. */
module OwnerNames {
  import opened Bytes
  import opened Codec
  import opened EntryFlags
  import opened FileEntry
  import opened FileList
  import opened FileListRun

  function Uids(es: seq<Entry>): (ids: seq<int>)
    ensures |ids| == |es| && forall i :: 0 <= i < |es| ==> ids[i] == es[i].uid
  {
    seq(|es|, i requires 0 <= i < |es| => es[i].uid)
  }

  function Gids(es: seq<Entry>): (ids: seq<int>)
    ensures |ids| == |es| && forall i :: 0 <= i < |es| ==> ids[i] == es[i].gid
  {
    seq(|es|, i requires 0 <= i < |es| => es[i].gid)
  }

  /** Each id that has a name, where it first occurs. */
  function FirstNames(ids: seq<int>, name: int -> seq<byte>): seq<Id> {
    if ids == [] then [] else
      var before, id := ids[..|ids| - 1], ids[|ids| - 1];
      FirstNames(before, name) + if id in before || name(id) == [] then [] else [Id(id, name(id))]
  }

  lemma FirstNamesMore(ids: seq<int>, name: int -> seq<byte>, id: int)
    ensures FirstNames(ids + [id], name)
         == FirstNames(ids, name) + if id in ids || name(id) == [] then [] else [Id(id, name(id))]
  {
    assert (ids + [id])[..|ids|] == ids;
  }

  /** Every id with a name is there with its name, nothing else is, and no id twice. */
  lemma {:induction false} FirstNamesAre(ids: seq<int>, name: int -> seq<byte>)
    ensures forall p :: p in FirstNames(ids, name) <==> p.id in ids && name(p.id) != [] && p.name == name(p.id)
    ensures forall i, j :: 0 <= i < j < |FirstNames(ids, name)| ==> FirstNames(ids, name)[i].id != FirstNames(ids, name)[j].id
  {
    if ids != [] {
      var before, id := ids[..|ids| - 1], ids[|ids| - 1];
      FirstNamesAre(before, name);
      assert ids == before + [id];
      var names, more := FirstNames(before, name), FirstNames(ids, name);
      forall i, j | 0 <= i < j < |more| ensures more[i].id != more[j].id {
        assert more[i] in names;
      }
    }
  }

  /** What the receiver should have read when these entries have been sent. */
  function NamesFor(o: Options, all: seq<Entry>): Names {
    Names(if o.incRecurse && o.preserveUid && !o.numericIds then FirstNames(Uids(all), o.userName) else [],
          if o.incRecurse && o.preserveGid && !o.numericIds then FirstNames(Gids(all), o.groupName) else [])
  }

  /** The ids of one kind that the sender has noted. */
  ghost predicate Noted(ids: seq<int>, noted: set<int>, named: bool, last: int) {
    (forall id :: id in noted <==> id in ids) && (named ==> last in noted)
  }

  /** The receiver has the names, and the sender knows of which ids. */
  ghost predicate Introduced(o: Options, t: Sender, r: Receiver, all: seq<Entry>) {
    && r.names == NamesFor(o, all)
    && (o.preserveUid && !o.numericIds ==> Noted(Uids(all), t.users, t.last.name != [], t.last.uid))
    && (o.preserveGid && !o.numericIds ==> Noted(Gids(all), t.groups, t.last.name != [], t.last.gid))
  }

  lemma Start(o: Options, last: Last)
    requires last.name == []
    ensures Introduced(o, Sender(last, {}, {}, map[]), Receiver(last, false, [], NONE_READ), [])
  {
  }

  /** The flags that go with the ids. */
  lemma OwnerFlags(o: Options, t: Sender, e: Entry)
    ensures var x := FlagsSent(o, t, e);
      && (o.preserveUid ==> x.sameUid == (e.uid == t.last.uid && t.last.name != []))
      && (o.preserveGid ==> x.sameGid == (e.gid == t.last.gid && t.last.name != []))
      && x.userName == (NewUser(o, t, e) && o.incRecurse && o.userName(e.uid) != [])
      && x.groupName == (NewGroup(o, t, e) && o.incRecurse && o.groupName(e.gid) != [])
  {
    hide Common, ToNat, HighBits, NewUser, NewGroup, Options.HasAtime, Options.HasRdev;
  }

  /** One kind of id: the name goes out with the first entry that has the id. */
  lemma OneName(ids: seq<int>, noted: set<int>, named: bool, last: int, id: int, name: int -> seq<byte>)
    requires Noted(ids, noted, named, last)
    ensures var same, isNew := id == last && named, id !in noted;
      && Noted(ids + [id], if !same && isNew then noted + {id} else noted, true, id)
      && FirstNames(ids + [id], name)
         == FirstNames(ids, name) + NameIf(!same && isNew && name(id) != [], id, name(id))
  {
    hide FirstNames;
    FirstNamesMore(ids, name, id);
    assert forall k :: k in ids + [id] <==> k in ids || k == id;
  }

  lemma OldId(ids: seq<int>, name: int -> seq<byte>, id: int)
    requires id in ids
    ensures FirstNames(ids + [id], name) == FirstNames(ids, name)
  {
    FirstNamesMore(ids, name, id);
  }

  lemma Snoc(all: seq<Entry>, e: Entry)
    ensures Uids(all + [e]) == Uids(all) + [e.uid] && Gids(all + [e]) == Gids(all) + [e.gid]
  {
  }

  lemma EntryIntroduced(o: Options, t: Sender, r: Receiver, first: int, ndx: int, e: Entry, all: seq<Entry>)
    requires Introduced(o, t, r, all) && e.name != []
    requires Abbreviated(t, e, first) ==> e.uid in Uids(all) && e.gid in Gids(all)
    ensures Introduced(o, AfterSending(o, t, e, ndx), Expected(o, t, r, e, first), all + [e])
  {
    hide FirstNames, FlagsSent, Noted, Uids, Gids, Stored, Known;
    Snoc(all, e);
    OwnerFlags(o, t, e);
    if o.preserveUid && !o.numericIds {
      OneName(Uids(all), t.users, t.last.name != [], t.last.uid, e.uid, o.userName);
    }
    if o.preserveGid && !o.numericIds {
      OneName(Gids(all), t.groups, t.last.name != [], t.last.gid, e.gid, o.groupName);
    }
    if Abbreviated(t, e, first) {
      OldId(Uids(all), o.userName, e.uid);
      OldId(Gids(all), o.groupName, e.gid);
      assert r.names.Plus(NONE_READ) == r.names;
    }
  }

  lemma {:induction false} ListIntroduced(o: Options, t: Sender, r: Receiver, sent: seq<Entry>, first: int, es: seq<Entry>,
                                          all: seq<Entry>)
    requires AllOk(o, es) && GroupsAgree(sent + es) && Mirror(o, t, r, sent, first) && 0 <= first
    requires Introduced(o, t, r, all) && forall e :: e in sent ==> e in all
    ensures Introduced(o, AfterAll(o, t, es, first + |sent|), ExpectedAll(o, t, r, es, first), all + es)
    decreases |es|
  {
    hide Introduced, Expected, AfterSending, Entry.Ok, Options.Ok, SameFile, Mirror, GroupsAgree;
    if es == [] {
      assert all + es == all;
    } else {
      var e := es[0];
      assert e.Ok(o);
      OneFile(o, t, r, sent, first, es, all);
      EntryIntroduced(o, t, r, first, first + |sent|, e, all);
      MirrorKept(o, t, r, sent, first, e);
      assert sent + [e] + es[1..] == sent + es && all + [e] + es[1..] == all + es;
      ListIntroduced(o, AfterSending(o, t, e, first + |sent|), Expected(o, t, r, e, first), sent + [e], first, es[1..],
                     all + [e]);
    }
  }

  /** An abbreviated entry names a file that went out in full, with its owner and group. */
  lemma OneFile(o: Options, t: Sender, r: Receiver, sent: seq<Entry>, first: int, es: seq<Entry>, all: seq<Entry>)
    requires es != [] && es[0].Ok(o) && GroupsAgree(sent + es) && Mirror(o, t, r, sent, first)
    requires forall e :: e in sent ==> e in all
    ensures |r.files| == |sent| && es[0].name != []
    ensures Abbreviated(t, es[0], first) ==> es[0].uid in Uids(all) && es[0].gid in Gids(all)
  {
    hide GroupsAgree, Stored;
    LinkAgrees(o, t, r, sent, first, es);
    if Abbreviated(t, es[0], first) {
      var was := sent[t.links[es[0].inode] - first];
      assert was in all;
      var k :| 0 <= k < |all| && all[k] == was;
      assert Uids(all)[k] == es[0].uid && Gids(all)[k] == es[0].gid;
    }
  }

  function Flat(lists: seq<seq<Entry>>): seq<Entry> {
    if lists == [] then [] else lists[0] + Flat(lists[1..])
  }

  lemma {:induction false} ListsIntroduced(o: Options, t: Sender, r: Receiver, lists: seq<seq<Entry>>, first: int,
                                           all: seq<Entry>)
    requires ListsOk(o, lists) && Mirror(o, t, r.(files := []), [], first) && 0 <= first && Introduced(o, t, r, all)
    ensures Introduced(o, EndSender(o, t, lists, first), EndReceiver(o, t, r, lists, first), all + Flat(lists))
    decreases |lists|
  {
    hide Mirror, AllOk, GroupsAgree, AfterAll, ExpectedAll, NamesFor, Noted;
    if lists == [] {
      assert all + [] == all;
    } else {
      var es, r0 := lists[0], r.(files := []);
      var t1, r1, next := AfterAll(o, t, es, first), ExpectedAll(o, t, r0, es, first), After(first, |es|);
      assert AllOk(o, es) && GroupsAgree(es) && [] + es == es;
      ListIntroduced(o, t, r0, [], first, es, all);
      ListMirrors(o, t, r0, [], first, es);
      NextList(o, t1, r1, es, first, next);
      ListsIntroduced(o, t1, r1, lists[1..], next, all + es);
      assert all + es + Flat(lists[1..]) == all + Flat(lists);
    }
  }

  lemma {:induction false} ListMirrors(o: Options, t: Sender, r: Receiver, sent: seq<Entry>, first: int, es: seq<Entry>)
    requires AllOk(o, es) && Mirror(o, t, r, sent, first) && 0 <= first
    ensures Mirror(o, AfterAll(o, t, es, first + |sent|), ExpectedAll(o, t, r, es, first), sent + es, first)
    decreases |es|
  {
    hide Expected, AfterSending, Entry.Ok, Options.Ok, Mirror;
    if es == [] {
      assert sent + es == sent;
    } else {
      MirrorKept(o, t, r, sent, first, es[0]);
      FilesAre(o, t, r, sent, first);
      assert sent + [es[0]] + es[1..] == sent + es;
      ListMirrors(o, AfterSending(o, t, es[0], first + |sent|), Expected(o, t, r, es[0], first), sent + [es[0]], first, es[1..]);
    }
  }

  lemma FilesAre(o: Options, t: Sender, r: Receiver, sent: seq<Entry>, first: int)
    requires Mirror(o, t, r, sent, first)
    ensures |r.files| == |sent|
  {
    hide Stored;
  }

  /** After any run of incremental lists the receiver has read the name of every owner and group that has one, each once,
      with the first entry that has it. */
  lemma NamesArrive(o: Options, t: Sender, r: Receiver, lists: seq<seq<Entry>>, first: int, sendError: bool, err: int,
                    tail: seq<byte>, all: seq<Entry>)
    requires ListsOk(o, lists) && Mirror(o, t, r.(files := []), [], first) && OneIndexEach(t.links)
    requires 0 <= first && first + Span(lists) <= 0x8000_0000 && Introduced(o, t, r, all)
    requires IsInt32(err) && (sendError ==> o.varintFlags || o.safeEnd)
    ensures var got := GetLists(o, r, first, |lists|, PutLists(o, t, lists, first, sendError, err, tail));
      got.Got? && got.value.names == NamesFor(o, all + Flat(lists))
  {
    hide Mirror, OneIndexEach, ListsOk, GetLists, PutLists, EndSender, EndReceiver, NamesFor, Noted;
    var files := ListsArrive(o, t, r, lists, first, sendError, err, tail);
    ListsIntroduced(o, t, r, lists, first, all);
  }
}
