/** hlink.c:100-208: the hard-link groups of a whole list (no incremental recursion). */
module HardLinks {
  /** The hard-link part of an entry. The group number and the previous index share one word. */
  datatype Entry = Entry(num: int, hlinked: bool, first: bool, last: bool, done: bool)

  /** The indices to be matched: all different, by group and then by index. */
  ghost predicate Grouped(s: seq<Entry>, list: seq<int>) {
    && (forall k :: 0 <= k < |list| ==> 0 <= list[k] < |s|)
    && (forall j, k :: 0 <= j < k < |list| ==> Before(s, list[j], list[k]))
  }

  /** hlink_compare_gnum. */
  predicate Before(s: seq<Entry>, a: int, b: int)
    requires 0 <= a < |s| && 0 <= b < |s|
  {
    if s[a].num != s[b].num then s[a].num < s[b].num else a < b
  }

  predicate Same(s: seq<Entry>, list: seq<int>, j: int, k: int)
    requires 0 <= j && 0 <= k
  {
    j < |list| && k < |list| && 0 <= list[j] < |s| && 0 <= list[k] < |s| && s[list[j]].num == s[list[k]].num
  }

  predicate HasPrev(s: seq<Entry>, list: seq<int>, k: nat) {
    k > 0 && Same(s, list, k - 1, k)
  }

  predicate HasNext(s: seq<Entry>, list: seq<int>, k: nat) {
    Same(s, list, k, k + 1)
  }

  /** What becomes of the k-th entry of the list. */
  function Linked(s: seq<Entry>, list: seq<int>, k: nat, start: int): Entry
    requires k < |list| && 0 <= list[k] < |s|
  {
    var e := s[list[k]];
    if !HasPrev(s, list, k) && !HasNext(s, list, k) then e.(hlinked := false, first := false, done := true)
    else e.(num := if HasPrev(s, list, k) then list[k - 1] + start else -1,
            first := e.first || !HasPrev(s, list, k),
            last := e.last || !HasNext(s, list, k))
  }

  /** The first n entries of the list are linked, the rest are as before. */
  ghost predicate Done(s: seq<Entry>, t: seq<Entry>, list: seq<int>, n: int, start: int) {
    && |t| == |s|
    && (forall k :: 0 <= k < n && k < |list| && 0 <= list[k] < |s| ==> t[list[k]] == Linked(s, list, k, start))
    && (forall i :: 0 <= i < |s| && (forall k :: 0 <= k < n && k < |list| ==> list[k] != i) ==> t[i] == s[i])
  }

  /** match_gnums: groups of two or more become chains, single entries are no longer hard links. */
  method MatchGnums(files: array<Entry>, list: seq<int>, start: int)
    requires Grouped(files[..], list) && start >= 0
    modifies files
    ensures Done(old(files[..]), files[..], list, |list|, start)
  {
    ghost var s := files[..];
    var from := 0;
    while from < |list|
      invariant 0 <= from <= |list| && Done(s, files[..], list, from, start) && !HasPrev(s, list, from)
    {
      from := MatchOne(files, list, start, from, s);
    }
  }

  /** The entries before `from` are linked, and the one at `from` is in work: x. */
  ghost predicate InWork(s: seq<Entry>, t: seq<Entry>, list: seq<int>, from: int, start: int, x: Entry) {
    && 0 <= from < |list| && 0 <= list[from] < |s| == |t| && t[list[from]] == x
    && Done(s, t[list[from] := s[list[from]]], list, from, start)
  }

  lemma Begun(s: seq<Entry>, t: seq<Entry>, list: seq<int>, from: int, start: int)
    requires Grouped(s, list) && 0 <= from < |list| && Done(s, t, list, from, start)
    ensures InWork(s, t, list, from, start, s[list[from]])
  {
    Untouched(s, t, list, from, start, from);
    assert t[list[from] := s[list[from]]] == t;
  }

  lemma Changed(s: seq<Entry>, t: seq<Entry>, list: seq<int>, from: int, start: int, x: Entry, y: Entry)
    requires InWork(s, t, list, from, start, x)
    ensures InWork(s, t[list[from] := y], list, from, start, y)
  {
    hide Done;
    assert t[list[from] := y][list[from] := s[list[from]]] == t[list[from] := s[list[from]]];
  }

  lemma Finished(s: seq<Entry>, t: seq<Entry>, list: seq<int>, from: int, start: int, x: Entry)
    requires Grouped(s, list) && InWork(s, t, list, from, start, x) && x == Linked(s, list, from, start)
    ensures Done(s, t, list, from + 1, start)
  {
    hide Linked;
    var u := t[list[from] := s[list[from]]];
    forall k | 0 <= k < from + 1 && k < |list| && 0 <= list[k] < |s| ensures t[list[k]] == Linked(s, list, k, start) {
      assert k < from ==> u[list[k]] == Linked(s, list, k, start) && Before(s, list[k], list[from]);
    }
    forall i | 0 <= i < |s| && (forall k :: 0 <= k < from + 1 && k < |list| ==> list[k] != i) ensures t[i] == s[i] {
      assert list[from] != i;
      assert u[i] == s[i];
    }
  }

  /** One group: from its first entry to the one after its last. */
  method MatchOne(files: array<Entry>, list: seq<int>, start: int, begin: int, ghost s: seq<Entry>) returns (end: int)
    requires Grouped(s, list) && start >= 0 && 0 <= begin < |list| && !HasPrev(s, list, begin)
    requires Done(s, files[..], list, begin, start)
    modifies files
    ensures begin < end <= |list| && Done(s, files[..], list, end, start) && !HasPrev(s, list, end)
  {
    hide Done, Grouped, At, HasPrev;
    var from, prev := begin, -1;
    var gnum := BeginGroup(files, list, start, begin, s);
    while from < |list| - 1 && files[list[from + 1]].num == gnum
      invariant begin <= from < |list| && At(s, files[..], list, begin, from, start, prev)
      invariant files.Length == |s| && 0 <= list[from] < |s| && gnum == s[list[from]].num
      invariant from + 1 < |list| ==> 0 <= list[from + 1] < files.Length
      invariant from + 1 < |list| ==> files[list[from + 1]].num == s[list[from + 1]].num
    {
      prev := LinkOne(files, list, start, begin, from, prev, s);
      from := from + 1;
    }
    end := from + 1;
    EndGroup(files, list, start, begin, from, prev, s);
  }

  /** The entry in work: the first of its group is already marked. */
  function Marked(s: seq<Entry>, list: seq<int>, begin: int, from: int): Entry
    requires 0 <= from < |list| && 0 <= list[from] < |s|
  {
    if from == begin then s[list[from]].(first := true) else s[list[from]]
  }

  ghost predicate At(s: seq<Entry>, t: seq<Entry>, list: seq<int>, begin: int, from: int, start: int, prev: int) {
    && 0 <= begin <= from < |list| && 0 <= list[from] < |s|
    && InWork(s, t, list, from, start, Marked(s, list, begin, from))
    && HasPrev(s, list, from) == (from > begin)
    && prev == if from > begin then list[from - 1] + start else -1
  }

  method BeginGroup(files: array<Entry>, list: seq<int>, ghost start: int, begin: int, ghost s: seq<Entry>) returns (gnum: int)
    requires Grouped(s, list) && 0 <= begin < |list| && !HasPrev(s, list, begin)
    requires Done(s, files[..], list, begin, start)
    modifies files
    ensures files.Length == |s|
    ensures At(s, files[..], list, begin, begin, start, -1) && 0 <= list[begin] < |s| && gnum == s[list[begin]].num
    ensures begin + 1 < |list| ==> 0 <= list[begin + 1] < files.Length && files[list[begin + 1]].num == s[list[begin + 1]].num
  {
    InRange(s, list);
    hide Done, InWork, Grouped;
    Begun(s, files[..], list, begin, start);
    Known(s, files[..], list, begin, start, s[list[begin]]);
    gnum := files[list[begin]].num;
    Write(files, list, begin, files[list[begin]].(first := true), start, s, s[list[begin]]);
    Known(s, files[..], list, begin, start, Marked(s, list, begin, begin));
  }

  /** An entry with a successor in its group. */
  method LinkOne(files: array<Entry>, list: seq<int>, start: int, ghost begin: int, from: int, prev: int, ghost s: seq<Entry>)
    returns (next: int)
    requires Grouped(s, list) && At(s, files[..], list, begin, from, start, prev)
    requires from + 1 < |list| && HasNext(s, list, from)
    modifies files
    ensures At(s, files[..], list, begin, from + 1, start, next) && 0 <= list[from + 1] < |s|
    ensures s[list[from + 1]].num == s[list[from]].num
    ensures from + 2 < |list| ==> 0 <= list[from + 2] < files.Length && files[list[from + 2]].num == s[list[from + 2]].num
  {
    InRange(s, list);
    hide Done, InWork, Grouped, Linked;
    ghost var x := Marked(s, list, begin, from);
    Known(s, files[..], list, from, start, x);
    Write(files, list, from, files[list[from]].(num := prev), start, s, x);
    LinkedMiddle(s, list, from, start, prev, x);
    Finished(s, files[..], list, from, start, x.(num := prev));
    next := list[from] + start;
    Begun(s, files[..], list, from + 1, start);
    Known(s, files[..], list, from + 1, start, s[list[from + 1]]);
  }

  /** The last entry of its group, or a single one. */
  method EndGroup(files: array<Entry>, list: seq<int>, ghost start: int, ghost begin: int, from: int, prev: int,
                  ghost s: seq<Entry>)
    requires Grouped(s, list) && start >= 0 && At(s, files[..], list, begin, from, start, prev) && !HasNext(s, list, from)
    modifies files
    ensures Done(s, files[..], list, from + 1, start) && !HasPrev(s, list, from + 1)
  {
    InRange(s, list);
    hide Done, InWork, Grouped, Linked;
    ghost var x := Marked(s, list, begin, from);
    Known(s, files[..], list, from, start, x);
    var y := files[list[from]];
    y := if prev < 0 then y.(hlinked := false, first := false, done := true) else y.(last := true, num := prev);
    Write(files, list, from, y, start, s, x);
    LinkedLast(s, list, from, start, prev, x);
    Finished(s, files[..], list, from, start, y);
  }

  method Write(files: array<Entry>, list: seq<int>, from: int, y: Entry, ghost start: int, ghost s: seq<Entry>, ghost x: Entry)
    requires 0 <= from < |list| && 0 <= list[from] < files.Length && InWork(s, files[..], list, from, start, x)
    modifies files
    ensures InWork(s, files[..], list, from, start, y) && files[list[from]] == y
  {
    hide InWork;
    ghost var t := files[..];
    Changed(s, t, list, from, start, x, y);
    files[list[from]] := y;
    assert files[..] == t[list[from] := y];
  }

  /** While an entry is in work, the next one is still as it was. */
  lemma Known(s: seq<Entry>, t: seq<Entry>, list: seq<int>, from: int, start: int, x: Entry)
    requires Grouped(s, list) && InWork(s, t, list, from, start, x)
    ensures |t| == |s| && t[list[from]] == x && (from + 1 < |list| ==> t[list[from + 1]] == s[list[from + 1]])
  {
    var u := t[list[from] := s[list[from]]];
    if from + 1 < |list| {
      Untouched(s, u, list, from, start, from + 1);
      assert Before(s, list[from], list[from + 1]);
    }
  }

  lemma LinkedMiddle(s: seq<Entry>, list: seq<int>, k: nat, start: int, prev: int, x: Entry)
    requires k < |list| && 0 <= list[k] < |s| && HasNext(s, list, k)
    requires prev == if HasPrev(s, list, k) then list[k - 1] + start else -1
    requires x == if HasPrev(s, list, k) then s[list[k]] else s[list[k]].(first := true)
    ensures x.(num := prev) == Linked(s, list, k, start)
  {
  }

  lemma LinkedLast(s: seq<Entry>, list: seq<int>, k: nat, start: int, prev: int, x: Entry)
    requires k < |list| && 0 <= list[k] < |s| && !HasNext(s, list, k) && start >= 0 && (k > 0 ==> list[k - 1] >= 0)
    requires prev == if HasPrev(s, list, k) then list[k - 1] + start else -1
    requires x == if HasPrev(s, list, k) then s[list[k]] else s[list[k]].(first := true)
    ensures (if prev < 0 then x.(hlinked := false, first := false, done := true) else x.(last := true, num := prev))
         == Linked(s, list, k, start)
  {
  }

  lemma InRange(s: seq<Entry>, list: seq<int>)
    requires Grouped(s, list)
    ensures forall k :: 0 <= k < |list| ==> 0 <= list[k] < |s|
  {
  }

  lemma Untouched(s: seq<Entry>, t: seq<Entry>, list: seq<int>, n: int, start: int, k: int)
    requires Grouped(s, list) && Done(s, t, list, n, start) && 0 <= n <= k < |list|
    ensures t[list[k]] == s[list[k]]
  {
  }

  // ---------- the chains ----------

  /** Following the links from entry i, until -1. */
  function Walk(t: seq<Entry>, start: int, i: int): seq<int>
    requires 0 <= i < |t|
    decreases i
  {
    [i] + if 0 <= t[i].num - start < i then Walk(t, start, t[i].num - start) else []
  }

  /** list[a..k], from the last to the first. */
  function Backwards(list: seq<int>, a: nat, k: int): seq<int>
    requires k < |list|
    decreases k
  {
    if k < a then [] else [list[k]] + Backwards(list, a, k - 1)
  }

  /** list[a..b] is one whole group. */
  ghost predicate Group(s: seq<Entry>, list: seq<int>, a: nat, b: nat) {
    && a < b <= |list| && !HasPrev(s, list, a) && !HasNext(s, list, b - 1)
    && forall k :: a < k < b ==> HasPrev(s, list, k)
  }

  /** What a member of a larger group looks like afterwards. */
  lemma MemberOf(s: seq<Entry>, t: seq<Entry>, list: seq<int>, start: int, a: nat, b: nat, k: nat)
    requires Grouped(s, list) && Done(s, t, list, |list|, start) && Group(s, list, a, b) && b - a >= 2 && a <= k < b
    ensures |t| == |s| && 0 <= list[k] < |s| && (k > a ==> 0 <= list[k - 1] < list[k])
    ensures t[list[k]] == s[list[k]].(num := if k > a then list[k - 1] + start else -1,
                                      first := s[list[k]].first || k == a, last := s[list[k]].last || k == b - 1)
  {
    hide Linked;
    assert t[list[k]] == Linked(s, list, k, start);
    assert HasPrev(s, list, k) == (k > a);
    assert k > a ==> Before(s, list[k - 1], list[k]);
    assert HasNext(s, list, k) == (k + 1 < b) by {
      assert k + 1 < b ==> HasPrev(s, list, k + 1);
    }
    LinkedIs(s, list, k, start);
  }

  lemma LinkedIs(s: seq<Entry>, list: seq<int>, k: nat, start: int)
    requires k < |list| && 0 <= list[k] < |s| && (HasPrev(s, list, k) || HasNext(s, list, k))
    ensures Linked(s, list, k, start)
         == s[list[k]].(num := if HasPrev(s, list, k) then list[k - 1] + start else -1,
                        first := s[list[k]].first || !HasPrev(s, list, k), last := s[list[k]].last || !HasNext(s, list, k))
  {
  }

  lemma {:induction false} ChainWalk(s: seq<Entry>, t: seq<Entry>, list: seq<int>, start: int, a: nat, b: nat, k: nat)
    requires Grouped(s, list) && Done(s, t, list, |list|, start) && start >= 0 && Group(s, list, a, b) && b - a >= 2 && a <= k < b
    requires k < |list|
    ensures |t| == |s| && 0 <= list[k] < |s| && Walk(t, start, list[k]) == Backwards(list, a, k)
    decreases k
  {
    hide Grouped, Done, Group, Walk, Backwards;
    MemberOf(s, t, list, start, a, b, k);
    var i := list[k];
    BackStep(list, a, k);
    if k > a {
      WalkStep(t, start, i, list[k - 1]);
      ChainWalk(s, t, list, start, a, b, k - 1);
    } else {
      WalkEnd(t, start, i);
    }
  }

  lemma WalkStep(t: seq<Entry>, start: int, i: int, j: int)
    requires 0 <= j < i < |t| && t[i].num == j + start
    ensures Walk(t, start, i) == [i] + Walk(t, start, j)
  {
  }

  lemma WalkEnd(t: seq<Entry>, start: int, i: int)
    requires 0 <= i < |t| && t[i].num == -1 && start >= 0
    ensures Walk(t, start, i) == [i]
  {
  }

  lemma BackStep(list: seq<int>, a: nat, k: nat)
    requires a <= k < |list|
    ensures Backwards(list, a, k) == [list[k]] + if k > a then Backwards(list, a, k - 1) else []
  {
  }

  /** A group of two or more: one FIRST entry, where the walk ends, and one LAST entry, whence it reaches all the others
      once, by descending index. */
  lemma GroupIsChain(s: seq<Entry>, t: seq<Entry>, list: seq<int>, start: int, a: nat, b: nat, k: nat)
    requires Grouped(s, list) && Done(s, t, list, |list|, start) && start >= 0 && Group(s, list, a, b) && b - a >= 2 && a <= k < b
    requires b <= |list| && 0 <= list[k] < |s|
    requires !s[list[k]].first && !s[list[k]].last
    ensures |t| == |s| && 0 <= list[b - 1] < |s| && Walk(t, start, list[b - 1]) == Backwards(list, a, b - 1)
    ensures 0 <= list[a] < |s| && t[list[a]].num == -1
    ensures t[list[k]].hlinked == s[list[k]].hlinked
    ensures (t[list[k]].first <==> k == a) && (t[list[k]].last <==> k == b - 1)
  {
    hide Grouped, Done, Group, Walk, Backwards;
    MemberOf(s, t, list, start, a, b, k);
    MemberOf(s, t, list, start, a, b, a);
    ChainWalk(s, t, list, start, a, b, b - 1);
  }

  /** An entry that is alone in its group is no longer a hard link. */
  lemma SingleUnlinked(s: seq<Entry>, t: seq<Entry>, list: seq<int>, start: int, a: nat)
    requires Grouped(s, list) && Done(s, t, list, |list|, start) && Group(s, list, a, a + 1)
    ensures |t| == |s| && t[list[a]] == s[list[a]].(hlinked := false, first := false, done := true)
  {
    assert t[list[a]] == Linked(s, list, a, start);
  }

  /** The groups of the list are the groups of the entries: equal numbers lie together. */
  lemma GroupWhole(s: seq<Entry>, list: seq<int>, a: nat, b: nat, j: nat)
    requires Grouped(s, list) && Group(s, list, a, b) && j < |list|
    ensures s[list[j]].num == s[list[a]].num <==> a <= j < b
  {
    if a <= j {
      SameGroup(s, list, a, b, if j < b then j else b - 1);
    }
    if j < a {
      assert j < a - 1 ==> Before(s, list[j], list[a - 1]);
      assert Before(s, list[a - 1], list[a]);
    } else if j >= b {
      SameGroup(s, list, a, b, b - 1);
      assert Before(s, list[b - 1], list[b]);
      assert j > b ==> Before(s, list[b], list[j]);
    }
  }

  lemma {:induction false} SameGroup(s: seq<Entry>, list: seq<int>, a: nat, b: nat, k: nat)
    requires Grouped(s, list) && Group(s, list, a, b) && a <= k < b
    ensures s[list[k]].num == s[list[a]].num
  {
    if k > a {
      assert HasPrev(s, list, k);
      SameGroup(s, list, a, b, k - 1);
    }
  }

  // ---------- match_hard_links, hlink.c:186-208 ----------

  function Insert(s: seq<Entry>, list: seq<int>, x: int): seq<int>
    requires 0 <= x < |s| && forall k :: 0 <= k < |list| ==> 0 <= list[k] < |s|
  {
    if list == [] || Before(s, x, list[0]) then [x] + list else [list[0]] + Insert(s, list[1..], x)
  }

  lemma {:induction false} InsertOk(s: seq<Entry>, list: seq<int>, x: int)
    requires 0 <= x < |s| && Grouped(s, list) && x !in list
    ensures Grouped(s, Insert(s, list, x))
    ensures forall i :: i in Insert(s, list, x) <==> i == x || i in list
  {
    if list != [] && !Before(s, x, list[0]) {
      GroupedTail(s, list);
      InsertOk(s, list[1..], x);
      var more := Insert(s, list[1..], x);
      forall k | 0 <= k < |more| ensures 0 <= more[k] < |s| && Before(s, list[0], more[k]) {
        assert more[k] in more;
      }
      GroupedCons(s, list[0], more);
    } else {
      forall k | 0 <= k < |list| ensures Before(s, x, list[k]) {
        assert k > 0 ==> Before(s, list[0], list[k]);
      }
      GroupedCons(s, x, list);
    }
  }

  lemma GroupedTail(s: seq<Entry>, list: seq<int>)
    requires Grouped(s, list) && list != []
    ensures Grouped(s, list[1..]) && forall i :: i in list[1..] ==> 0 <= i < |s| && Before(s, list[0], i)
    ensures forall i :: i in list <==> i == list[0] || i in list[1..]
  {
    hide Before;
    var rest := list[1..];
    assert forall k :: 0 <= k < |rest| ==> rest[k] == list[k + 1];
    assert list == [list[0]] + rest;
  }

  lemma GroupedCons(s: seq<Entry>, x: int, list: seq<int>)
    requires 0 <= x < |s| && Grouped(s, list) && forall k :: 0 <= k < |list| ==> Before(s, x, list[k])
    ensures Grouped(s, [x] + list)
  {
    hide Before;
  }

  /** Every hard-linked entry is matched, with no others; the sort by group and index has only one result. */
  method MatchHardLinks(files: array<Entry>, start: int) returns (ghost list: seq<int>)
    requires start >= 0
    modifies files
    ensures Grouped(old(files[..]), list) && forall i :: 0 <= i < files.Length ==> (i in list <==> old(files[i].hlinked))
    ensures Done(old(files[..]), files[..], list, |list|, start)
  {
    hide Insert;
    var ndx: seq<int> := [];
    for i := 0 to files.Length
      invariant files[..] == old(files[..]) && Grouped(files[..], ndx)
      invariant forall k :: k in ndx ==> 0 <= k < i
      invariant forall k :: 0 <= k < i ==> (k in ndx <==> files[k].hlinked)
    {
      if files[i].hlinked {
        InsertOk(files[..], ndx, i);
        ndx := Insert(files[..], ndx, i);
      }
    }
    list := ndx;
    MatchGnums(files, ndx, start);
  }
}
