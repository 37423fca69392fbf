/** flist.c:1816-1838, 2718-2722, 2770-2773: the index numbers of directories on the two ends. */
module DirIndex {
  import opened Bytes
  import opened FileSort

  function Dirs(s: seq<File>): seq<File> {
    if s == [] then [] else (if s[0].isDir then [s[0]] else []) + Dirs(s[1..])
  }

  lemma {:induction false} DirsAppend(a: seq<File>, b: seq<File>)
    ensures Dirs(a + b) == Dirs(a) + Dirs(b)
  {
    if a == [] {
      assert a + b == b;
    } else {
      DirsAppend(a[1..], b);
      var c := a + b;
      assert c[0] == a[0] && c[1..] == a[1..] + b;
      Associative(if a[0].isDir then [a[0]] else [], Dirs(a[1..]), Dirs(b));
    }
  }

  lemma {:induction false} DirsOfKey(s: seq<File>, k: seq<int>)
    ensures With(Dirs(s), k) == Dirs(With(s, k))
  {
    hide File.Key;
    if s != [] {
      DirsOfKey(s[1..], k);
      DirsAppend(One(s[0], k), With(s[1..], k));
      var first := if s[0].isDir then [s[0]] else [];
      WithAppend(first, Dirs(s[1..]), k);
      assert With([s[0]], k) == One(s[0], k) + With([], k);
      assert Dirs([s[0]]) == first + Dirs([]);
    }
  }

  lemma {:induction false} DirsBelow(x: File, s: seq<File>)
    requires Below(x, s)
    ensures Below(x, Dirs(s))
  {
    hide Le;
    if s != [] {
      DirsBelow(x, s[1..]);
    }
  }

  lemma {:induction false} DirsSorted(s: seq<File>)
    requires Sorted(s)
    ensures Sorted(Dirs(s))
  {
    hide Le;
    if s != [] {
      SortedTail(s);
      DirsSorted(s[1..]);
      DirsBelow(s[0], s[1..]);
      SortedCons(s[0], Dirs(s[1..]));
    }
  }

  /** The directories of the sorted list are the sorted list of the directories. */
  lemma DirsOfSort(s: seq<File>)
    ensures Dirs(Sort(s)) == Sort(Dirs(s))
  {
    hide Sort, Le, Dirs, With, Sorted;
    SortWorks(s);
    SortWorks(Dirs(s));
    DirsSorted(Sort(s));
    forall k ensures With(Dirs(Sort(s)), k) == With(Sort(Dirs(s)), k) {
      DirsOfKey(Sort(s), k);
      DirsOfKey(s, k);
    }
    SortUnique(Dirs(Sort(s)), Sort(Dirs(s)));
  }

  lemma {:induction false} DirsAmong(s: seq<File>)
    ensures Entries(Dirs(s)) <= Entries(s)
  {
    if s != [] {
      DirsAmong(s[1..]);
      assert forall f :: f in Dirs(s) ==> f == s[0] || f in Entries(Dirs(s[1..]));
    }
  }

  lemma DirsComparable(s: seq<File>)
    requires AllComparable(Entries(s))
    ensures AllComparable(Entries(Dirs(s)))
  {
    hide Dirs, Entries;
    DirsAmong(s);
  }

  class SendingIndex {
    var files: seq<File>

    constructor ()
      ensures files == []
    {
      files := [];
    }

    /** add_dirs_to_tree: the directories of the sorted list, until as many are seen as were counted. */
    method AddDirs(sorted: seq<File>, count: nat)
      requires count == |Dirs(sorted)|
      modifies this
      ensures files == old(files) + Dirs(sorted)
    {
      var i, left := 0, count;
      while left > 0
        invariant i <= |sorted| && left == |Dirs(sorted[i..])|
        invariant files + Dirs(sorted[i..]) == old(files) + Dirs(sorted)
        decreases |sorted| - i
      {
        ghost var was, rest := files, Dirs(sorted[i + 1..]);
        assert sorted[i..][1..] == sorted[i + 1..];
        if sorted[i].isDir {
          files := files + [sorted[i]];
          left := left - 1;
          assert was + ([sorted[i]] + rest) == files + rest;
        }
        i := i + 1;
      }
    }
  }

  class ReceivingIndex {
    var files: seq<File>

    constructor ()
      ensures files == []
    {
      files := [];
    }

    /** recv_file_list: the directories as they arrive, then the new part of the index is sorted. */
    method RecvDirs(list: seq<File>)
      requires AllComparable(Entries(list))
      modifies this
      ensures files == old(files) + Sort(Dirs(list))
    {
      hide Sort, AllComparable;
      var dstart := |files|;
      for i := 0 to |list|
        invariant files == old(files) + Dirs(list[..i])
      {
        assert list[..i + 1] == list[..i] + [list[i]];
        DirsAppend(list[..i], [list[i]]);
        assert Dirs([list[i]]) == (if list[i].isDir then [list[i]] else []) + Dirs([]);
        if list[i].isDir {
          files := files + [list[i]];
        }
      }
      assert list[..|list|] == list;
      var a := new File[|files|](i requires 0 <= i < |files| reads this => files[i]);
      var used := |files|;
      assert a[..] == files && a[dstart..used] == Dirs(list);
      DirsComparable(list);
      FSort(a, dstart, used - dstart);
      assert a[..dstart] == old(files);
      files := a[..];
      assert files == a[..dstart] + a[dstart..used];
    }
  }

  function SenderIndex(lists: seq<seq<File>>): seq<File> {
    if lists == [] then [] else SenderIndex(lists[..|lists| - 1]) + Dirs(Sort(lists[|lists| - 1]))
  }

  function ReceiverIndex(lists: seq<seq<File>>): seq<File> {
    if lists == [] then [] else ReceiverIndex(lists[..|lists| - 1]) + Sort(Dirs(lists[|lists| - 1]))
  }

  /** After any number of incremental lists both ends number the directories alike. */
  lemma {:induction false} IndexesAgree(lists: seq<seq<File>>)
    ensures SenderIndex(lists) == ReceiverIndex(lists)
  {
    if lists != [] {
      IndexesAgree(lists[..|lists| - 1]);
      DirsOfSort(lists[|lists| - 1]);
    }
  }

  method SortList(list: seq<File>) returns (sorted: seq<File>)
    requires AllComparable(Entries(list))
    ensures sorted == Sort(list)
  {
    hide Sort, AllComparable, Entries;
    var a := new File[|list|](i requires 0 <= i < |list| => list[i]);
    assert a[..] == a[0..|list|] == list;
    FSort(a, 0, |list|);
    sorted := a[..];
    assert sorted == a[0..|list|];
  }

  /** The two ends, list by list. */
  method RunIndexes(lists: seq<seq<File>>) returns (sending: seq<File>, receiving: seq<File>)
    requires forall i :: 0 <= i < |lists| ==> AllComparable(Entries(lists[i]))
    ensures sending == receiving == SenderIndex(lists)
  {
    hide Sort, Dirs, AllComparable, Entries;
    var s := new SendingIndex();
    var r := new ReceivingIndex();
    for i := 0 to |lists|
      invariant s.files == SenderIndex(lists[..i]) && r.files == ReceiverIndex(lists[..i])
    {
      assert lists[..i + 1][..i] == lists[..i];
      var sorted := SortList(lists[i]);
      s.AddDirs(sorted, |Dirs(sorted)|);
      r.RecvDirs(lists[i]);
    }
    assert lists[..|lists|] == lists;
    IndexesAgree(lists);
    sending, receiving := s.files, r.files;
  }
}
