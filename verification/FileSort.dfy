/** flist.c:1747-1838: the merge sort of file lists, and the two ends' directory lists. */
module FileSort {
  import opened Bytes
  import opened NameOrder

  /** An entry of a list: its name, and which entry of the transfer it is. */
  datatype File = File(item: Item, id: int, isDir: bool)
  {
    function Key(): seq<int> {
      ItemKey(item)
    }
  }

  predicate Le(a: File, b: File) {
    Compare(a.Key(), b.Key()) <= 0
  }

  // ---------- the specification ----------

  function Merge(a: seq<File>, b: seq<File>): seq<File> {
    if a == [] then b
    else if b == [] then a
    else if Le(a[0], b[0]) then [a[0]] + Merge(a[1..], b)
    else [b[0]] + Merge(a, b[1..])
  }

  function Sort(s: seq<File>): (r: seq<File>)
    decreases |s|
  {
    if |s| <= 1 then s else Merge(Sort(s[..|s| / 2]), Sort(s[|s| / 2..]))
  }

  ghost predicate Sorted(s: seq<File>) {
    forall i, j :: 0 <= i < j < |s| ==> Le(s[i], s[j])
  }

  /** The entries that compare equal to a key, in order. */
  function With(s: seq<File>, k: seq<int>): seq<File> {
    if s == [] then [] else One(s[0], k) + With(s[1..], k)
  }

  function One(f: File, k: seq<int>): seq<File> {
    if f.Key() == k then [f] else []
  }

  /** b holds what a holds, and entries of equal key in the same order. */
  ghost predicate SameEntries(a: seq<File>, b: seq<File>) {
    forall k :: With(a, k) == With(b, k)
  }

  lemma {:induction false} WithAppend(a: seq<File>, b: seq<File>, k: seq<int>)
    ensures With(a + b, k) == With(a, k) + With(b, k)
  {
    hide One;
    if a == [] {
      assert a + b == b;
    } else {
      WithAppend(a[1..], b, k);
      var c := a + b;
      assert c[0] == a[0] && c[1..] == a[1..] + b;
      Associative(One(a[0], k), With(a[1..], k), With(b, k));
    }
  }

  lemma LeTotal(a: File, b: File)
    ensures Le(a, b) || Le(b, a)
    ensures Le(a, b) && Le(b, a) ==> a.Key() == b.Key()
  {
    hide File.Key;
    CompareFlips(a.Key(), b.Key());
  }

  lemma LeChains(a: File, b: File, c: File)
    requires Le(a, b) && Le(b, c)
    ensures Le(a, c)
  {
    hide File.Key;
    CompareChains(a.Key(), b.Key(), c.Key());
  }

  ghost predicate Below(x: File, s: seq<File>) {
    forall i :: 0 <= i < |s| ==> Le(x, s[i])
  }

  /** An element no greater than the head of a sorted list is no greater than all of it. */
  lemma BelowAll(x: File, s: seq<File>)
    requires Sorted(s) && (s != [] ==> Le(x, s[0]))
    ensures Below(x, s)
  {
    hide Le;
    forall i | 0 < i < |s| ensures Le(x, s[i]) {
      LeChains(x, s[0], s[i]);
    }
  }

  lemma SortedTail(s: seq<File>)
    requires Sorted(s) && s != []
    ensures Sorted(s[1..]) && Below(s[0], s[1..])
  {
    hide Le;
  }

  lemma SortedCons(x: File, s: seq<File>)
    requires Sorted(s) && Below(x, s)
    ensures Sorted([x] + s)
  {
    hide Le;
  }

  lemma {:induction false} MergeSorted(a: seq<File>, b: seq<File>)
    requires Sorted(a) && Sorted(b)
    ensures Sorted(Merge(a, b)) && forall x :: Below(x, a) && Below(x, b) ==> Below(x, Merge(a, b))
  {
    hide Le;
    if a != [] && b != [] {
      LeTotal(a[0], b[0]);
      SortedTail(a);
      SortedTail(b);
      if Le(a[0], b[0]) {
        BelowAll(a[0], b);
        MergeSorted(a[1..], b);
        SortedCons(a[0], Merge(a[1..], b));
      } else {
        BelowAll(b[0], a);
        MergeSorted(a, b[1..]);
        SortedCons(b[0], Merge(a, b[1..]));
      }
    }
  }

  lemma MergeStep(a: seq<File>, b: seq<File>)
    requires a != [] && b != []
    ensures Le(a[0], b[0]) ==> Merge(a, b) == [a[0]] + Merge(a[1..], b)
    ensures !Le(a[0], b[0]) ==> Merge(a, b) == [b[0]] + Merge(a, b[1..])
  {
  }

  lemma MergeEnds(a: seq<File>, b: seq<File>)
    ensures a == [] ==> Merge(a, b) == b
    ensures b == [] ==> Merge(a, b) == a
  {
  }

  lemma Bag(x: File, s: seq<File>)
    ensures multiset([x] + s) == multiset{x} + multiset(s)
  {
  }

  lemma {:induction false} MergeMembers(a: seq<File>, b: seq<File>)
    ensures multiset(Merge(a, b)) == multiset(a) + multiset(b)
  {
    hide Le, Merge;
    MergeEnds(a, b);
    if a != [] && b != [] {
      MergeStep(a, b);
      if Le(a[0], b[0]) {
        MergeMembers(a[1..], b);
        Bag(a[0], Merge(a[1..], b));
        Bag(a[0], a[1..]);
        assert [a[0]] + a[1..] == a;
      } else {
        MergeMembers(a, b[1..]);
        Bag(b[0], Merge(a, b[1..]));
        Bag(b[0], b[1..]);
        assert [b[0]] + b[1..] == b;
      }
    }
  }

  lemma {:induction false} Absent(s: seq<File>, k: seq<int>)
    requires forall i :: 0 <= i < |s| ==> s[i].Key() != k
    ensures With(s, k) == []
  {
    hide File.Key;
    if s != [] {
      Absent(s[1..], k);
    }
  }

  /** Merging takes equal keys from the left list first. */
  lemma {:induction false} MergeStable(a: seq<File>, b: seq<File>, k: seq<int>)
    requires Sorted(a) && Sorted(b)
    ensures With(Merge(a, b), k) == With(a, k) + With(b, k)
  {
    hide Le, File.Key;
    if a != [] && b != [] {
      LeTotal(a[0], b[0]);
      SortedTail(a);
      SortedTail(b);
      if Le(a[0], b[0]) {
        MergeStable(a[1..], b, k);
        assert ([a[0]] + Merge(a[1..], b))[1..] == Merge(a[1..], b);
      } else {
        MergeStable(a, b[1..], k);
        assert ([b[0]] + Merge(a, b[1..]))[1..] == Merge(a, b[1..]);
        if b[0].Key() == k {
          LaterKeys(b[0], a);
        }
      }
    }
  }

  lemma LaterKeys(x: File, s: seq<File>)
    requires Sorted(s) && (s != [] ==> !Le(s[0], x))
    ensures With(s, x.Key()) == []
  {
    hide Le, File.Key;
    forall i | 0 <= i < |s| ensures s[i].Key() != x.Key() {
      assert i > 0 ==> Le(s[0], s[i]);
      KeysDecide(s[0], s[i], x);
    }
    Absent(s, x.Key());
  }

  lemma KeysDecide(a: File, b: File, x: File)
    requires !Le(a, x) && (a == b || Le(a, b))
    ensures b.Key() != x.Key()
  {
    hide File.Key;
  }

  /** The sort is a stable, permuting sort. */
  lemma {:induction false} SortWorks(s: seq<File>)
    ensures Sorted(Sort(s)) && multiset(Sort(s)) == multiset(s) && |Sort(s)| == |s|
    ensures forall k :: With(Sort(s), k) == With(s, k)
    decreases |s|
  {
    hide Le, Merge, File.Key;
    if |s| > 1 {
      var a, b := s[..|s| / 2], s[|s| / 2..];
      assert s == a + b;
      SortWorks(a);
      SortWorks(b);
      MergeSorted(Sort(a), Sort(b));
      MergeMembers(Sort(a), Sort(b));
      assert |Sort(s)| == |multiset(Sort(s))|;
      forall k ensures With(Sort(s), k) == With(s, k) {
        MergeStable(Sort(a), Sort(b), k);
        WithAppend(a, b, k);
      }
    }
  }

  lemma {:induction false} WithHead(s: seq<File>, i: nat)
    requires i < |s|
    ensures With(s, s[i].Key()) != [] && exists j :: 0 <= j <= i && s[j] == With(s, s[i].Key())[0] && s[j].Key() == s[i].Key()
  {
    hide File.Key;
    if i > 0 && s[0].Key() != s[i].Key() {
      WithHead(s[1..], i - 1);
      assert s[1..][i - 1] == s[i];
      var j :| 0 <= j <= i - 1 && s[1..][j] == With(s[1..], s[i].Key())[0] && s[1..][j].Key() == s[i].Key();
      assert s[j + 1] == s[1..][j];
    }
  }

  lemma NonEmpty(a: seq<File>, b: seq<File>)
    requires SameEntries(a, b)
    ensures a != [] ==> b != []
  {
    hide One;
    if a != [] {
      WithHead(a, 0);
      assert With(b, a[0].Key()) != [];
    }
  }

  /** There is only one stable sort. */
  lemma {:induction false} SortUnique(a: seq<File>, b: seq<File>)
    requires Sorted(a) && Sorted(b) && SameEntries(a, b)
    ensures a == b
  {
    hide Le, File.Key;
    if a == [] || b == [] {
      NonEmpty(a, b);
      NonEmpty(b, a);
    } else {
      SameHead(a, b);
      SortedTail(a);
      SortedTail(b);
      forall k ensures With(a[1..], k) == With(b[1..], k) {
        assert With(a, k) == With(b, k);
        var first := One(a[0], k);
        assert (first + With(a[1..], k))[|first|..] == With(a[1..], k);
        assert (first + With(b[1..], k))[|first|..] == With(b[1..], k);
      }
      SortUnique(a[1..], b[1..]);
      assert a == [a[0]] + a[1..] && b == [b[0]] + b[1..];
    }
  }

  lemma SameHead(a: seq<File>, b: seq<File>)
    requires Sorted(a) && Sorted(b) && SameEntries(a, b) && a != [] && b != []
    ensures a[0] == b[0]
  {
    hide Le, File.Key;
    HeadLe(a, b);
    HeadLe(b, a);
    LeTotal(a[0], b[0]);
    assert With(a, a[0].Key()) == With(b, a[0].Key());
    assert With(a, a[0].Key())[0] == a[0] && With(b, a[0].Key())[0] == b[0];
  }

  lemma HeadLe(a: seq<File>, b: seq<File>)
    requires Sorted(a) && SameEntries(a, b) && a != [] && b != []
    ensures Le(a[0], b[0])
  {
    hide Le, File.Key;
    WithHead(b, 0);
    assert With(a, b[0].Key()) != [];
    var i := Member(a, b[0].Key());
    LeSelf(a[0]);
    KeyOnly(a[0], a[i], b[0]);
  }

  lemma {:induction false} Member(s: seq<File>, k: seq<int>) returns (i: nat)
    requires With(s, k) != []
    ensures i < |s| && s[i].Key() == k
  {
    hide File.Key;
    if s[0].Key() == k {
      i := 0;
    } else {
      i := Member(s[1..], k);
      i := i + 1;
    }
  }

  lemma LeSelf(a: File)
    ensures Le(a, a)
  {
  }

  lemma KeyOnly(a: File, b: File, c: File)
    requires Le(a, b) && b.Key() == c.Key()
    ensures Le(a, c)
  {
    hide File.Key;
  }

  // ---------- fsort, flist.c:1754-1812 ----------

  /** No two of these entries make f_name_cmp run past the end. */
  ghost predicate AllComparable(all: set<File>) {
    forall a, b :: a in all && b in all ==> Comparable(a.item, b.item)
  }

  ghost predicate Among(s: seq<File>, all: set<File>) {
    forall i :: 0 <= i < |s| ==> s[i] in all
  }

  ghost function Entries(s: seq<File>): set<File> {
    set f | f in s
  }

  lemma SortAmong(s: seq<File>, all: set<File>)
    requires Among(s, all)
    ensures Among(Sort(s), all)
  {
    hide Sort, Sorted, With;
    SortWorks(s);
    var r := Sort(s);
    forall i | 0 <= i < |r| ensures r[i] in all {
      assert r[i] in multiset(r);
      assert r[i] in multiset(s);
      assert r[i] in s;
    }
  }

  /** The test of both loops of fsort_tmp, with the comparator itself. */
  method NotGreater(a: File, b: File, ghost all: set<File>) returns (le: bool)
    requires AllComparable(all) && a in all && b in all
    ensures le <==> Le(a, b)
  {
    hide Comparable;
    assert Comparable(a.item, b.item);
    ItemsAre(a.item, b.item);
    var r := NameCmp(a.item, b.item);
    le := r.dif <= 0;
  }

  lemma ItemsAre(a: Item, b: Item)
    requires Comparable(a, b)
    ensures ItemsOk(a, b)
  {
  }

  /** One element of the merge: the runs x and y, the output written so far. */
  lemma Emitted(all: seq<File>, done: seq<File>, x: seq<File>, y: seq<File>)
    requires all == done + Merge(x, y) && x != [] && y != []
    ensures Le(x[0], y[0]) ==> all == done + [x[0]] + Merge(x[1..], y)
    ensures !Le(x[0], y[0]) ==> all == done + [y[0]] + Merge(x, y[1..])
  {
    hide Le;
    MergeStep(x, y);
  }

  lemma Part(fp: array<File>, lo: nat, hi: nat, i: nat, j: nat, all: set<File>)
    requires lo <= i <= j <= hi <= fp.Length && Among(fp[lo..hi], all)
    ensures Among(fp[i..j], all)
  {
    forall k | 0 <= k < j - i ensures fp[i..j][k] in all {
      assert fp[i..j][k] == fp[lo..hi][i - lo + k];
    }
  }

  lemma InRun(s: seq<File>, all: set<File>)
    requires Among(s, all)
    ensures forall i :: 0 <= i < |s| ==> s[i] in all
  {
  }

  /** Passes the part of the left run that is in place already. */
  method SkipInPlace(fp: array<File>, lo: nat, mid: nat, hi: nat, ghost all: set<File>) returns (f1: nat)
    requires lo < mid < hi <= fp.Length && AllComparable(all) && Among(fp[lo..hi], all)
    ensures lo <= f1 <= mid && (f1 < mid ==> !Le(fp[f1], fp[mid]))
    ensures Merge(fp[lo..mid], fp[mid..hi]) == fp[lo..f1] + Merge(fp[f1..mid], fp[mid..hi])
  {
    hide Le, Merge, AllComparable, Among;
    InRun(fp[lo..hi], all);
    ghost var y := fp[mid..hi];
    ghost var merged := Merge(fp[lo..mid], y);
    f1 := lo;
    var le := NotGreater(fp[f1], fp[mid], all);
    while le
      invariant lo <= f1 < mid && (le <==> Le(fp[f1], fp[mid]))
      invariant merged == fp[lo..f1] + Merge(fp[f1..mid], y)
      decreases mid - f1
    {
      Emitted(merged, fp[lo..f1], fp[f1..mid], y);
      assert fp[f1..mid][1..] == fp[f1 + 1..mid];
      assert fp[lo..f1 + 1] == fp[lo..f1] + [fp[f1]];
      f1 := f1 + 1;
      if f1 == mid {
        return;
      }
      le := NotGreater(fp[f1], fp[mid], all);
    }
  }

  /** memcpy between two arrays. */
  method Copy(src: array<File>, from: nat, n: nat, dst: array<File>, to: nat)
    requires src != dst && from + n <= src.Length && to + n <= dst.Length
    modifies dst
    ensures dst[to..to + n] == src[from..from + n]
    ensures forall i :: 0 <= i < to || to + n <= i < dst.Length ==> dst[i] == old(dst[i])
  {
    for i := 0 to n
      invariant forall j :: to <= j < to + i ==> dst[j] == src[from + (j - to)]
      invariant forall j :: 0 <= j < to || to + n <= j < dst.Length ==> dst[j] == old(dst[j])
    {
      dst[to + i] := src[from + i];
    }
  }

  /** The next element goes to f1, from the front of x = tmp[t..n] or of y = fp[f2..hi]. */
  method MergeOne(fp: array<File>, ghost at: nat, f1: nat, f2: nat, hi: nat, tmp: array<File>, t: nat, n: nat,
                  ghost merged: seq<File>, ghost all: set<File>)
    returns (t1: nat, g2: nat)
    requires at <= f1 && t < n <= tmp.Length && f1 + (n - t) == f2 < hi <= fp.Length && fp != tmp
    requires merged == fp[at..f1] + Merge(tmp[t..n], fp[f2..hi])
    requires AllComparable(all) && tmp[t] in all && fp[f2] in all
    modifies fp
    ensures t <= t1 && f2 <= g2 && t1 + g2 == t + f2 + 1
    ensures t1 <= n && g2 <= hi && merged == fp[at..f1 + 1] + Merge(tmp[t1..n], fp[g2..hi])
    ensures forall i :: 0 <= i < fp.Length && i != f1 ==> fp[i] == old(fp[i])
  {
    hide Le, Merge, AllComparable;
    ghost var done, x, y := fp[at..f1], tmp[t..n], fp[f2..hi];
    Emitted(merged, done, x, y);
    t1, g2 := t, f2;
    var le := NotGreater(tmp[t], fp[f2], all);
    if le {
      fp[f1] := tmp[t];
      t1 := t + 1;
      assert tmp[t1..n] == x[1..] && fp[g2..hi] == y;
    } else {
      fp[f1] := fp[f2];
      g2 := f2 + 1;
      assert fp[g2..hi] == y[1..];
    }
    assert fp[at..f1 + 1] == done + [fp[f1]];
  }

  /** flist.c:1785-1790: until one run is empty. */
  method MergeLoop(fp: array<File>, ghost at: nat, start: nat, right: nat, hi: nat, tmp: array<File>, left: nat, n: nat,
                   ghost merged: seq<File>, ghost all: set<File>)
    returns (f1: nat, t: nat)
    requires at <= start && left <= n <= tmp.Length && start + (n - left) == right <= hi <= fp.Length && fp != tmp
    requires merged == fp[at..start] + Merge(tmp[left..n], fp[right..hi])
    requires AllComparable(all) && Among(tmp[left..n], all) && Among(fp[right..hi], all)
    modifies fp
    ensures start <= f1 && t <= n && f1 + (n - t) <= hi && (t == n || f1 + (n - t) == hi)
    ensures merged == fp[at..f1] + if t == n then fp[f1..hi] else tmp[t..n]
    ensures forall i :: 0 <= i < start || hi <= i < fp.Length ==> fp[i] == old(fp[i])
  {
    hide Le, Merge, AllComparable, Among;
    InRun(tmp[left..n], all);
    InRun(fp[right..hi], all);
    var f2 := right;
    f1, t := start, left;
    while t < n && f2 < hi
      invariant start <= f1 && left <= t <= n && f1 + (n - t) == f2 && right <= f2 <= hi
      invariant forall i :: f2 <= i < hi ==> fp[i] == old(fp[i])
      invariant merged == fp[at..f1] + Merge(tmp[t..n], fp[f2..hi])
      invariant forall i :: 0 <= i < start || hi <= i < fp.Length ==> fp[i] == old(fp[i])
      decreases n - t + hi - f2
    {
      assert tmp[t] == tmp[left..n][t - left] && fp[f2] == old(fp[right..hi])[f2 - right];
      t, f2 := MergeOne(fp, at, f1, f2, hi, tmp, t, n, merged, all);
      f1 := f1 + 1;
    }
    MergeEnds(tmp[t..n], fp[f2..hi]);
  }

  /** flist.c:1780-1783: the left run goes to tmp, and the head of the right run to its place. */
  method MergeStart(fp: array<File>, at: nat, mid: nat, hi: nat, tmp: array<File>, ghost all: set<File>)
    requires at < mid < hi <= fp.Length && mid - at <= tmp.Length && fp != tmp
    requires !Le(fp[at], fp[mid]) && Among(fp[at..hi], all)
    modifies fp, tmp
    ensures Merge(old(fp[at..mid]), old(fp[mid..hi])) == fp[at..at + 1] + Merge(tmp[0..mid - at], fp[mid + 1..hi])
    ensures Among(tmp[0..mid - at], all) && Among(fp[mid + 1..hi], all)
    ensures forall i :: 0 <= i < at || hi <= i < fp.Length ==> fp[i] == old(fp[i])
  {
    hide Le, Merge, Among;
    ghost var x, y := fp[at..mid], fp[mid..hi];
    Part(fp, at, hi, at, mid, all);
    Part(fp, at, hi, mid + 1, hi, all);
    MergeStep(x, y);
    Copy(fp, at, mid - at, tmp, 0);
    fp[at] := fp[mid];
    assert fp[mid + 1..hi] == y[1..] == old(fp[mid + 1..hi]);
    assert tmp[0..mid - at] == x;
    assert fp[at..at + 1] == [y[0]];
  }

  /** The second half of the merge: the rest of the left run waits in tmp. */
  method MergeBack(fp: array<File>, at: nat, mid: nat, hi: nat, tmp: array<File>, ghost all: set<File>)
    requires at < mid < hi <= fp.Length && mid - at <= tmp.Length && fp != tmp
    requires !Le(fp[at], fp[mid]) && AllComparable(all) && Among(fp[at..hi], all)
    modifies fp, tmp
    ensures fp[at..hi] == Merge(old(fp[at..mid]), old(fp[mid..hi]))
    ensures forall i :: 0 <= i < at || hi <= i < fp.Length ==> fp[i] == old(fp[i])
  {
    hide Le, Merge, AllComparable, Among;
    ghost var merged := Merge(fp[at..mid], fp[mid..hi]);
    var n1 := mid - at;
    MergeStart(fp, at, mid, hi, tmp, all);
    var f1, t := MergeLoop(fp, at, at + 1, mid + 1, hi, tmp, 0, n1, merged, all);
    ghost var done := fp[at..f1];
    Copy(tmp, t, n1 - t, fp, f1);
    assert fp[at..f1] == done;
    assert fp[at..hi] == fp[at..f1] + fp[f1..hi];
  }

  /** Merging two adjacent sorted runs, with room for the left one only. */
  method MergeRuns(fp: array<File>, lo: nat, mid: nat, hi: nat, tmp: array<File>, ghost all: set<File>)
    requires lo < mid < hi <= fp.Length && mid - lo <= tmp.Length && fp != tmp
    requires AllComparable(all) && Among(fp[lo..hi], all)
    modifies fp, tmp
    ensures fp[lo..hi] == Merge(old(fp[lo..mid]), old(fp[mid..hi]))
    ensures forall i :: 0 <= i < lo || hi <= i < fp.Length ==> fp[i] == old(fp[i])
  {
    hide Le, Merge, AllComparable, Among;
    var f1 := SkipInPlace(fp, lo, mid, hi, all);
    if f1 < mid {
      ghost var done := fp[lo..f1];
      Part(fp, lo, hi, f1, hi, all);
      MergeBack(fp, f1, mid, hi, tmp, all);
      assert fp[lo..f1] == done;
      assert fp[lo..hi] == done + fp[f1..hi];
    } else {
      MergeEnds(fp[f1..mid], fp[mid..hi]);
      assert fp[lo..hi] == fp[lo..mid] + fp[mid..hi];
    }
  }

  lemma SortHalves(s: seq<File>)
    ensures |s| >= 2 ==> Sort(s) == Merge(Sort(s[..|s| / 2]), Sort(s[|s| / 2..]))
    ensures |s| <= 1 ==> Sort(s) == s
  {
    hide Merge;
  }

  lemma Joined(fp: array<File>, lo: nat, mid: nat, hi: nat, all: set<File>)
    requires lo <= mid <= hi <= fp.Length && Among(fp[lo..mid], all) && Among(fp[mid..hi], all)
    ensures Among(fp[lo..hi], all)
  {
    assert fp[lo..hi] == fp[lo..mid] + fp[mid..hi];
  }

  /** One of the two runs; a single entry is sorted. */
  method SortRun(fp: array<File>, lo: nat, num: nat, tmp: array<File>, ghost all: set<File>)
    requires lo + num <= fp.Length && num / 2 <= tmp.Length && fp != tmp
    requires AllComparable(all) && Among(fp[lo..lo + num], all)
    modifies fp, tmp
    ensures fp[lo..lo + num] == Sort(old(fp[lo..lo + num])) && Among(fp[lo..lo + num], all)
    ensures forall i :: 0 <= i < lo || lo + num <= i < fp.Length ==> fp[i] == old(fp[i])
    decreases num, 1
  {
    hide Sort, AllComparable, Among;
    SortAmong(fp[lo..lo + num], all);
    SortHalves(fp[lo..lo + num]);
    if num > 1 {
      FSortTmp(fp, lo, num, tmp, all);
    }
  }

  /** fsort_tmp: the array slice becomes its stable sort, and nothing else changes. */
  method FSortTmp(fp: array<File>, lo: nat, num: nat, tmp: array<File>, ghost all: set<File>)
    requires 2 <= num && lo + num <= fp.Length && num / 2 <= tmp.Length && fp != tmp
    requires AllComparable(all) && Among(fp[lo..lo + num], all)
    modifies fp, tmp
    ensures fp[lo..lo + num] == Sort(old(fp[lo..lo + num]))
    ensures forall i :: 0 <= i < lo || lo + num <= i < fp.Length ==> fp[i] == old(fp[i])
    decreases num, 0
  {
    hide Le, Merge, Sort, AllComparable, Among;
    var n1 := num / 2;
    var mid, hi := lo + n1, lo + num;
    ghost var was := fp[lo..hi];
    SortHalves(was);
    Part(fp, lo, hi, lo, mid, all);
    Part(fp, lo, hi, mid, hi, all);
    assert was[..n1] == fp[lo..mid] && was[n1..] == fp[mid..hi];
    SortRun(fp, lo, n1, tmp, all);
    assert fp[mid..hi] == was[n1..];
    ghost var left := fp[lo..mid];
    SortRun(fp, mid, num - n1, tmp, all);
    assert fp[lo..mid] == left;
    Joined(fp, lo, mid, hi, all);
    MergeRuns(fp, lo, mid, hi, tmp, all);
  }

  /** fsort: at most one entry needs no work. */
  method FSort(fp: array<File>, lo: nat, num: nat)
    requires lo + num <= fp.Length && AllComparable(Entries(fp[lo..lo + num]))
    modifies fp
    ensures fp[lo..lo + num] == Sort(old(fp[lo..lo + num]))
    ensures forall i :: 0 <= i < lo || lo + num <= i < fp.Length ==> fp[i] == old(fp[i])
  {
    if num <= 1 {
      return;
    }
    var tmp := new File[(num + 1) / 2];
    FSortTmp(fp, lo, num, tmp, Entries(fp[lo..lo + num]));
  }
}
