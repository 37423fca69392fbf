/** flist.c:3036-3120: flist_sort_and_clean on the receiver, after the sort. */
module FlistClean {
  import opened NameOrder
  import opened FlistFind
  import FileSort

  /** The key a directory's name would have as another kind of file. */
  function FileKey(n: Name): seq<int> {
    Key(n.(isDir := false))
  }

  /** Cleared entries sort first. */
  ghost predicate EmptyFirst(s: seq<Slot>) {
    forall i, j :: 0 <= i < j < |s| && s[i].Full? ==> s[j].Full?
  }

  ghost predicate NamesOk(s: seq<Slot>) {
    forall i :: 0 <= i < |s| && s[i].Full? ==> s[i].name.Ok()
  }

  /** No two entries make f_name_cmp run past the end. */
  ghost predicate PairsOk(s: seq<Slot>) {
    forall i, j :: 0 <= i < |s| && 0 <= j < |s| && s[i].Full? && s[j].Full? ==>
      Comparable(Here(s[i].name), Here(s[j].name))
  }

  /** No earlier entry has the key. */
  ghost predicate First(s: seq<Slot>, k: int)
    requires 0 <= k < |s| && s[k].Full?
  {
    forall j :: 0 <= j < k && s[j].Full? ==> KeyAt(s, j) != KeyAt(s, k)
  }

  ghost predicate Kills(s: seq<Slot>, j: int, k: int)
    requires 0 <= k < |s| && s[k].Full?
  {
    0 <= j < |s| && s[j].Full? && s[j].name.isDir && First(s, j) && FileKey(s[j].name) == KeyAt(s, k)
  }

  /** What is to be kept of the first i entries: the first of each key, unless a later directory has its name. */
  ghost predicate Survives(s: seq<Slot>, k: int, i: int)
    requires 0 <= k < |s| && s[k].Full?
  {
    First(s, k) && (!s[k].name.isDir ==> forall j :: k < j < i ==> !Kills(s, j, k))
  }

  function Merged(a: DirFlags, b: DirFlags): DirFlags {
    DirFlags(a.top || b.top, a.content || b.content, a.implied && b.implied)
  }

  /** The flags of entry k with those of the equal directories among the first i entries. */
  ghost function FlagsOf(s: seq<Slot>, k: int, i: int): DirFlags
    requires 0 <= k < |s| && s[k].Full? && i <= |s|
    decreases i - k
  {
    if i <= k + 1 then s[k].flags
    else if s[i - 1].Full? && s[i - 1].name.isDir && KeyAt(s, i - 1) == KeyAt(s, k)
    then Merged(FlagsOf(s, k, i - 1), s[i - 1].flags)
    else FlagsOf(s, k, i - 1)
  }

  /** The first i entries of s are cleaned in t, the rest are untouched. */
  ghost predicate Cleaned(s: seq<Slot>, t: seq<Slot>, i: int) {
    && |t| == |s| && 0 <= i <= |s|
    && (forall k :: i <= k < |s| ==> t[k] == s[k])
    && (forall k :: 0 <= k < i ==> CleanAt(s, t, k, i))
  }

  ghost predicate CleanAt(s: seq<Slot>, t: seq<Slot>, k: int, i: int)
    requires 0 <= k < |s| == |t| && i <= |s|
  {
    if s[k].Empty? then t[k].Empty?
    else (t[k].Full? <==> Survives(s, k, i)) && (t[k].Full? ==> t[k] == Full(s[k].name, FlagsOf(s, k, i)))
  }

  // ---------- keys of neighbours ----------

  /** In an ordered list an entry repeats an earlier key only if it repeats its neighbour's. */
  lemma FirstByNeighbour(s: seq<Slot>, i: int)
    requires Ordered(s) && EmptyFirst(s) && 0 < i < |s| && s[i - 1].Full?
    ensures s[i].Full? && (First(s, i) <==> KeyAt(s, i) != KeyAt(s, i - 1))
  {
    hide Key;
    if KeyAt(s, i) != KeyAt(s, i - 1) {
      forall j | 0 <= j < i && s[j].Full? ensures KeyAt(s, j) != KeyAt(s, i) {
        if j < i - 1 && KeyAt(s, j) == KeyAt(s, i) {
          CompareFlips(KeyAt(s, i - 1), KeyAt(s, j));
        }
      }
    }
  }

  /** A non-directory's key is never a directory's. */
  lemma KindsDiffer(m: Name, n: Name)
    requires m.Ok() && n.Ok() && m.isDir && !n.isDir
    ensures Key(m) != Key(n)
  {
    LastElem(n);
    if m.IsDot() {
      KeyParts(m);
      if Key(m) != [] {
        assert Key(m)[|Key(m)| - 1] >= 256;
      }
    } else {
      LastElem(m);
    }
  }

  // ---------- one entry ----------

  const CLEARED := Empty(1, 1)

  lemma Unkilled(s: seq<Slot>, k: int, i: int)
    requires 0 <= k < i < |s| && s[k].Full? && !Kills(s, i, k)
    ensures Survives(s, k, i + 1) <==> Survives(s, k, i)
  {
    hide Kills, First;
  }

  /** A repeated key: the new entry goes, and a directory leaves its flags to the one that stays. */
  lemma DropRepeat(s: seq<Slot>, t: seq<Slot>, i: int, p: int, u: seq<Slot>)
    requires Cleaned(s, t, i) && 0 <= p < i < |s| && s[i].Full? && s[p].Full? && t[p].Full? && KeyAt(s, p) == KeyAt(s, i)
    requires u == (if s[i].name.isDir then t[p := Full(t[p].name, Merged(t[p].flags, s[i].flags))] else t)[i := CLEARED]
    ensures Cleaned(s, u, i + 1)
  {
    hide Key, Merged;
    assert CleanAt(s, t, p, i);
    assert !First(s, i);
    var n := i + 1;
    forall k | 0 <= k < i ensures CleanAt(s, u, k, n) {
      assert CleanAt(s, t, k, i);
      if s[k].Full? {
        assert !Kills(s, i, k);
        Unkilled(s, k, i);
      }
    }
    assert CleanAt(s, u, i, i + 1);
  }

  /** A new key that is not a directory's stays. */
  lemma KeepPlain(s: seq<Slot>, t: seq<Slot>, i: int)
    requires Cleaned(s, t, i) && i < |s| && s[i].Full? && First(s, i) && !s[i].name.isDir
    ensures Cleaned(s, t, i + 1)
  {
    hide Key, Merged;
    var n := i + 1;
    forall k | 0 <= k < i ensures CleanAt(s, t, k, n) {
      assert CleanAt(s, t, k, i);
      if s[k].Full? {
        assert !Kills(s, i, k);
        Unkilled(s, k, i);
      }
    }
    assert CleanAt(s, t, i, i + 1);
  }

  /** A new directory stays, and what else had its name goes. */
  lemma KeepDir(s: seq<Slot>, t: seq<Slot>, i: int, j: int, u: seq<Slot>)
    requires Cleaned(s, t, i) && i < |s| && s[i].Full? && First(s, i) && s[i].name.isDir && NamesOk(s)
    requires j == -1 ==> Missing(t, 0, i - 1, FileKey(s[i].name)) && u == t
    requires j != -1 ==> 0 <= j < i && t[j].Full? && KeyAt(t, j) == FileKey(s[i].name) && u == t[j := CLEARED]
    ensures Cleaned(s, u, i + 1)
  {
    hide Key, Merged;
    var n := i + 1;
    forall k | 0 <= k < i ensures CleanAt(s, u, k, n) {
      assert CleanAt(s, t, k, i);
      if s[k].Full? {
        KeepDirAt(s, t, i, j, k);
      }
    }
    assert CleanAt(s, u, i, i + 1);
  }

  lemma KeepDirAt(s: seq<Slot>, t: seq<Slot>, i: int, j: int, k: int)
    requires Cleaned(s, t, i) && i < |s| && s[i].Full? && First(s, i) && s[i].name.isDir && NamesOk(s)
    requires j == -1 ==> Missing(t, 0, i - 1, FileKey(s[i].name))
    requires j != -1 ==> 0 <= j < i && t[j].Full? && KeyAt(t, j) == FileKey(s[i].name)
    requires 0 <= k < i && s[k].Full?
    ensures Survives(s, k, i + 1) <==> t[k].Full? && k != j
    ensures FlagsOf(s, k, i + 1) == FlagsOf(s, k, i)
  {
    hide Key, Merged, FlagsOf;
    assert CleanAt(s, t, k, i);
    if KeyAt(s, k) == FileKey(s[i].name) {
      KillsIt(s, i, k);
      if t[k].Full? && j != -1 {
        assert CleanAt(s, t, j, i);
        OnlyOne(s, j, k);
      }
    } else {
      Unkilled(s, k, i);
    }
    FlagsStay(s, k, i);
  }

  lemma KillsIt(s: seq<Slot>, i: int, k: int)
    requires 0 <= k < i < |s| && s[i].Full? && First(s, i) && s[i].name.isDir && NamesOk(s)
    requires s[k].Full? && KeyAt(s, k) == FileKey(s[i].name)
    ensures !Survives(s, k, i + 1)
  {
    assert Kills(s, i, k);
    if s[k].name.isDir {
      KindsDiffer(s[k].name, s[i].name.(isDir := false));
    }
  }

  lemma OnlyOne(s: seq<Slot>, j: int, k: int)
    requires 0 <= j < |s| && 0 <= k < |s| && s[j].Full? && s[k].Full? && First(s, j) && First(s, k)
    requires KeyAt(s, j) == KeyAt(s, k)
    ensures j == k
  {
  }

  lemma FlagsStay(s: seq<Slot>, k: int, i: int)
    requires 0 <= k < i < |s| && s[k].Full? && s[i].Full? && First(s, i)
    ensures FlagsOf(s, k, i + 1) == FlagsOf(s, k, i)
  {
    hide Key, Merged;
  }

  /** Searching moves distances only. */
  lemma CleanedStill(s: seq<Slot>, t: seq<Slot>, i: int, u: seq<Slot>)
    requires Cleaned(s, t, i) && SameBut(t, u) && EmptyFirst(s) && i < |s| && s[i].Full?
    ensures Cleaned(s, u, i)
  {
    hide Key, FlagsOf, Survives;
    forall k | 0 <= k < i ensures CleanAt(s, u, k, i) {
      assert CleanAt(s, t, k, i);
    }
  }

  lemma ClearedSkips(t: seq<Slot>, low: int, j: int)
    requires Skips(t, low) && 0 <= j < |t|
    ensures Skips(t[j := CLEARED], low)
  {
    var u := t[j := CLEARED];
    forall i | 0 <= i < |u| && low <= i && u[i].Empty? ensures SkipOk(u, i) {
      if i != j {
        assert SkipOk(t, i);
      }
    }
  }

  // ---------- the loop ----------

  /** Before entry i: `prev` is the last entry kept, and shares the key of the last one seen. */
  ghost predicate State(s: seq<Slot>, t: seq<Slot>, low: int, prev: int, i: int) {
    && Cleaned(s, t, i) && 0 <= low <= prev < i <= |s|
    && t[low].Full? && t[prev].Full? && s[prev].Full? && s[i - 1].Full? && KeyAt(s, prev) == KeyAt(s, i - 1)
    && Skips(t, low) && Clear(t, 0, low) && Clear(t, prev + 1, i)
  }

  ghost predicate ListOk(s: seq<Slot>) {
    Ordered(s) && EmptyFirst(s) && NamesOk(s) && PairsOk(s)
  }

  lemma OrderedStill(s: seq<Slot>, t: seq<Slot>, i: int)
    requires Ordered(s) && Cleaned(s, t, i)
    ensures Ordered(t) && forall k :: 0 <= k < |t| && t[k].Full? ==> s[k].Full? && t[k].name == s[k].name
  {
    hide Key, Compare, FlagsOf, Survives;
    forall k | 0 <= k < |t| && t[k].Full? ensures s[k].Full? && t[k].name == s[k].name {
      if k < i {
        assert CleanAt(s, t, k, i);
      }
    }
  }

  lemma RepeatStep(s: seq<Slot>, t: seq<Slot>, low: int, prev: int, i: int, u: seq<Slot>)
    requires ListOk(s) && State(s, t, low, prev, i) && i < |s| && s[i].Full? && KeyAt(s, prev) == KeyAt(s, i)
    requires u == (if s[i].name.isDir then t[prev := Full(t[prev].name, Merged(t[prev].flags, s[i].flags))] else t)[i := CLEARED]
    ensures State(s, u, low, prev, i + 1)
  {
    hide Key, Cleaned, Merged;
    Lengths(s, t, i);
    DropRepeat(s, t, i, prev, u);
    ClearedSkips(t, low, i);
    var v := t[i := CLEARED];
    FlagsSkip(v, low, u);
  }

  lemma Lengths(s: seq<Slot>, t: seq<Slot>, i: int)
    requires Cleaned(s, t, i)
    ensures |t| == |s| && forall k :: i <= k < |s| ==> t[k] == s[k]
  {
  }

  /** Changing an entry in place disturbs no distance. */
  lemma FlagsSkip(t: seq<Slot>, low: int, u: seq<Slot>)
    requires Skips(t, low) && |u| == |t| && forall k :: 0 <= k < |t| ==> if t[k].Empty? then u[k] == t[k] else u[k].Full?
    ensures Skips(u, low)
  {
    forall i | 0 <= i < |u| && low <= i && u[i].Empty? ensures SkipOk(u, i) {
      assert SkipOk(t, i);
    }
  }

  lemma StateStill(s: seq<Slot>, t: seq<Slot>, low: int, prev: int, i: int, u: seq<Slot>)
    requires ListOk(s) && State(s, t, low, prev, i) && i < |s| && s[i].Full? && SameBut(t, u) && Skips(u, low)
    ensures State(s, u, low, prev, i)
  {
    hide Key, Cleaned, Skips;
    Lengths(s, t, i);
    CleanedStill(s, t, i, u);
  }

  lemma PlainStep(s: seq<Slot>, t: seq<Slot>, low: int, prev: int, i: int)
    requires State(s, t, low, prev, i) && i < |s| && s[i].Full? && First(s, i) && !s[i].name.isDir
    ensures State(s, t, low, i, i + 1)
  {
    hide Key, Cleaned, Skips;
    Lengths(s, t, i);
    KeepPlain(s, t, i);
  }

  /** A directory takes the place of what the search found. */
  lemma DirStep(s: seq<Slot>, t: seq<Slot>, low: int, prev: int, i: int, j: int, u: seq<Slot>, low1: int)
    requires ListOk(s) && State(s, t, low, prev, i) && i < |s| && s[i].Full? && First(s, i) && s[i].name.isDir
    requires j == -1 ==> Missing(t, low, prev, FileKey(s[i].name)) && u == t && low1 == low
    requires j != -1 ==> low <= j <= prev && t[j].Full? && KeyAt(t, j) == FileKey(s[i].name) && u == t[j := CLEARED]
    requires low <= low1 <= i && |u| == |s| && u[low1].Full? && Clear(u, low, low1)
    ensures State(s, u, low1, i, i + 1)
  {
    hide Key, Cleaned, Skips, FileKey;
    Lengths(s, t, i);
    assert Missing(t, low, prev, FileKey(s[i].name)) ==> Missing(t, 0, i - 1, FileKey(s[i].name));
    KeepDir(s, t, i, j, u);
    if j != -1 {
      ClearedSkips(t, low, j);
    }
    SkipsAbove(u, low, low1);
  }

  lemma SkipsAbove(t: seq<Slot>, low: int, low1: int)
    requires Skips(t, low) && low <= low1
    ensures Skips(t, low1)
  {
  }

  /** flist.c:3069-3078, 3100-3117: a directory looks for another kind of file with its name. */
  method CleanDir(t: FileTable, i: int, prev: int, ghost s: seq<Slot>)
    requires ListOk(s) && State(s, t.sorted[..], t.low, prev, i) && i < t.sorted.Length == |s|
    requires s[i].Full? && t.sorted[i] == s[i] && First(s, i) && s[i].name.isDir
    modifies t, t.sorted
    ensures t.sorted == old(t.sorted) && State(s, t.sorted[..], t.low, i, i + 1)
  {
    hide State, ListOk, Key, Compare, Clear;
    ghost var was, low := t.sorted[..], t.low;
    Facts(s, was, low, prev, i);
    t.high := prev;
    var j := t.Find(t.sorted[i].name.(isDir := false));
    ghost var now := t.sorted[..];
    StateStill(s, was, low, prev, i, now);
    NothingBetween(now, low);
    if j >= 0 {
      t.sorted[j] := CLEARED;
      RaiseLow(t, j, i);
      assert t.sorted[..] == now[j := CLEARED];
    } else {
      MissingStill(was, now, low, prev, FileKey(s[i].name));
    }
    DirStep(s, now, low, prev, i, j, t.sorted[..], t.low);
  }

  lemma MissingStill(t: seq<Slot>, u: seq<Slot>, a: int, b: int, k: seq<int>)
    requires Missing(t, a, b, k) && SameBut(t, u)
    ensures Missing(u, a, b, k)
  {
    hide Key;
  }

  /** flist.c:3062-3117, one pass on the receiver. Equal keys are of one kind (KindsDiffer). */
  method CleanOne(t: FileTable, i: int, prev: int, ghost s: seq<Slot>) returns (kept: int)
    requires ListOk(s) && State(s, t.sorted[..], t.low, prev, i) && i < t.sorted.Length
    modifies t, t.sorted
    ensures t.sorted == old(t.sorted) && State(s, t.sorted[..], t.low, kept, i + 1)
  {
    hide State, ListOk, Key, FileKey, Compare, Merged;
    ghost var was := t.sorted[..];
    Facts(s, was, t.low, prev, i);
    var file := t.sorted[i];
    kept := i;
    var dif := Difference(file.name, t.sorted[prev].name);
    if dif == 0 {
      if file.name.isDir {
        t.sorted[prev] := Full(t.sorted[prev].name, Merged(t.sorted[prev].flags, file.flags));
      }
      t.sorted[i] := CLEARED;
      kept := prev;
      RepeatStep(s, was, t.low, prev, i, t.sorted[..]);
    } else if file.name.isDir {
      CleanDir(t, i, prev, s);
    } else {
      PlainStep(s, was, t.low, prev, i);
    }
  }

  /** What a pass needs to know. */
  lemma Facts(s: seq<Slot>, t: seq<Slot>, low: int, prev: int, i: int)
    requires ListOk(s) && State(s, t, low, prev, i) && i < |t|
    ensures |t| == |s| && 0 <= low <= prev < i && t[i] == s[i] && s[i].Full? && t[prev].Full? && t[prev].name == s[prev].name
    ensures s[prev].Full? && (First(s, i) <==> KeyAt(s, i) != KeyAt(s, prev))
    ensures Ordered(t) && Window(t, low, prev)
    ensures Comparable(Here(s[i].name), Here(s[prev].name)) && Searchable(t, low, prev, s[i].name.(isDir := false))
  {
    hide Key, Cleaned, Skips, Comparable;
    Lengths(s, t, i);
    OrderedStill(s, t, i);
    FirstByNeighbour(s, i);
    forall k | low <= k <= prev && t[k].Full? ensures Comparable(Here(t[k].name), Here(s[i].name.(isDir := false))) {
      AsFile(s[k].name, s[i].name);
    }
  }

  /** A name that is looked up as a file's is not a "." directory. */
  lemma AsFile(m: Name, n: Name)
    requires Comparable(Here(m), Here(n))
    ensures Comparable(Here(m), Here(n.(isDir := false)))
  {
    hide Key;
  }

  /** flist.c:3108-3113: the lower end moves off an entry that was dropped. */
  method RaiseLow(t: FileTable, drop: int, i: int)
    requires 0 <= t.low <= drop < i < t.sorted.Length && t.sorted[drop].Empty? && t.sorted[i].Full?
    requires t.low != drop ==> t.sorted[t.low].Full?
    modifies t`low
    ensures old(t.low) <= t.low <= i && t.sorted[t.low].Full? && Clear(t.sorted[..], old(t.low), t.low)
  {
    if t.low == drop {
      var j := drop + 1;
      while j < i && t.sorted[j].Empty?
        invariant drop < j <= i && Clear(t.sorted[..], drop, j)
      {
        j := j + 1;
      }
      t.low := j;
    }
  }

  /** flist_sort_and_clean after the sort, flist.c:3040-3120: what is kept is exactly what survives, and the window
      has an entry at either end as soon as the list has one. */
  method Clean(t: FileTable)
    requires ListOk(t.sorted[..])
    modifies t, t.sorted
    ensures t.sorted == old(t.sorted) && Cleaned(old(t.sorted[..]), t.sorted[..], t.sorted.Length)
    ensures t.sorted.Length == 0 ==> t.low == 0 && t.high == -1
    ensures t.sorted.Length > 0 ==> (Window(t.sorted[..], t.low, t.high) <==> old(t.sorted[t.sorted.Length - 1].Full?))
    ensures t.sorted.Length > 0 && old(t.sorted[t.sorted.Length - 1].Full?) ==>
      && Clear(t.sorted[..], 0, t.low) && Clear(t.sorted[..], t.high + 1, t.sorted.Length)
    ensures t.sorted.Length > 0 && old(t.sorted[t.sorted.Length - 1].Empty?) ==> t.low == 0 == t.high
  {
    hide Key, Compare, ListOk, State, Cleaned, Skips, Clear;
    ghost var s := t.sorted[..];
    var used := t.sorted.Length;
    t.low, t.high := 0, -1;
    NothingIn(s);
    if used == 0 {
      return;
    }
    var i := FirstEntry(t.sorted);
    var prev := if i < used then i else 0;
    t.low := prev;
    if i < used {
      StartState(s, i);
      i := i + 1;
      while i < used
        invariant State(s, t.sorted[..], t.low, prev, i) && t.sorted == old(t.sorted) && i <= used
      {
        prev := CleanOne(t, i, prev, s);
        i := i + 1;
      }
      Finished(s, t.sorted[..], t.low, prev);
    } else {
      AllEmpty(s);
    }
    t.high := prev;
  }

  /** The scan for the first entry, flist.c:3048-3054. */
  method FirstEntry(a: array<Slot>) returns (i: nat)
    ensures i <= a.Length && Clear(a[..], 0, i) && (i < a.Length ==> a[i].Full?)
  {
    i := 0;
    while i < a.Length && a[i].Empty?
      invariant 0 <= i <= a.Length && Clear(a[..], 0, i)
    {
      i := i + 1;
    }
  }

  lemma NothingIn(s: seq<Slot>)
    ensures s == [] ==> Cleaned(s, s, 0)
  {
  }

  lemma Finished(s: seq<Slot>, t: seq<Slot>, low: int, prev: int)
    requires State(s, t, low, prev, |s|)
    ensures |t| == |s| && Cleaned(s, t, |s|) && Window(t, low, prev) && s[|s| - 1].Full?
    ensures Clear(t, 0, low) && Clear(t, prev + 1, |s|)
  {
    hide Key, Skips, Cleaned;
    Lengths(s, t, |s|);
  }

  /** With nothing but cleared entries the window [0, 0] holds no entry, where an empty list has [0, -1]. */
  method EmptyWindow() returns (t: FileTable)
    ensures fresh(t) && t.sorted.Length == 1 && t.sorted[0].Empty? && t.low == 0 == t.high
    ensures !Window(t.sorted[..], t.low, t.high)
  {
    var a := new Slot[1](_ => CLEARED);
    t := new FileTable(a, 0, -1);
    assert ListOk(a[..]);
    Clean(t);
    assert CleanAt([CLEARED], a[..], 0, 1);
  }

  lemma AllEmpty(s: seq<Slot>)
    requires Clear(s, 0, |s|)
    ensures Cleaned(s, s, |s|) && (s != [] ==> s[0].Empty? && s[|s| - 1].Empty?)
  {
    hide Key, FlagsOf, Survives;
  }

  lemma StartState(s: seq<Slot>, i: int)
    requires ListOk(s) && 0 <= i < |s| && s[i].Full? && Clear(s, 0, i)
    ensures State(s, s, i, i, i + 1)
  {
    hide Key, Compare;
    var n := i + 1;
    forall k | 0 <= k < n ensures CleanAt(s, s, k, n) {
    }
  }

  // ---------- what cleaning achieves ----------

  /** No two entries that are left compare equal. */
  lemma NoTwins(s: seq<Slot>, t: seq<Slot>, j: int, k: int)
    requires Cleaned(s, t, |s|) && 0 <= j < |s| && 0 <= k < |s| && j != k && t[j].Full? && t[k].Full?
    ensures KeyAt(t, j) != KeyAt(t, k)
  {
    hide Key, FlagsOf;
    assert CleanAt(s, t, j, |s|) && CleanAt(s, t, k, |s|);
  }

  /** Nothing is lost: every entry has one of its key that is left, or a directory of its name that is. */
  lemma NoneLost(s: seq<Slot>, t: seq<Slot>, k: int)
    requires NamesOk(s) && Cleaned(s, t, |s|) && 0 <= k < |s| && s[k].Full?
    ensures exists j :: 0 <= j < |s| && t[j].Full? && Stands(s, j, k)
  {
    hide Key, FlagsOf;
    var f := FirstOf(s, k);
    assert CleanAt(s, t, f, |s|);
    if t[f].Empty? {
      var j :| f < j < |s| && Kills(s, j, f);
      assert CleanAt(s, t, j, |s|);
      assert Stands(s, j, k);
    } else {
      assert Stands(s, f, k);
    }
  }

  /** Entry j has the key of entry k, or is the directory that has its name. */
  predicate Stands(s: seq<Slot>, j: int, k: int)
    requires 0 <= j < |s| && 0 <= k < |s|
  {
    s[j].Full? && s[k].Full? &&
    (KeyAt(s, j) == KeyAt(s, k) || (s[j].name.isDir && FileKey(s[j].name) == KeyAt(s, k)))
  }

  lemma {:induction false} FirstOf(s: seq<Slot>, k: int) returns (f: int)
    requires 0 <= k < |s| && s[k].Full?
    ensures 0 <= f <= k && s[f].Full? && KeyAt(s, f) == KeyAt(s, k) && First(s, f)
    decreases k
  {
    hide Key;
    f := k;
    if !First(s, k) {
      var j :| 0 <= j < k && s[j].Full? && KeyAt(s, j) == KeyAt(s, k);
      f := FirstOf(s, j);
    }
  }

  /** A directory other than "." that is left shares its path with no other kind of file that is left. */
  lemma NoClash(s: seq<Slot>, t: seq<Slot>, d: int, f: int)
    requires ListOk(s) && Cleaned(s, t, |s|) && 0 <= d < |s| && 0 <= f < |s| && t[d].Full? && t[f].Full?
    requires t[d].name.isDir && !t[d].name.IsDot() && !t[f].name.isDir
    ensures t[d].name.Path() != t[f].name.Path()
  {
    hide Key, FlagsOf, Name.Path;
    assert CleanAt(s, t, d, |s|) && CleanAt(s, t, f, |s|);
    var m, n := s[d].name, s[f].name;
    var plain := m.(isDir := false);
    EqualNames(plain, n);
    SamePath(m);
    if m.Path() == n.Path() {
      assert Kills(s, d, f);
      KindsApart(plain, m);
      CompareFlips(Key(plain), Key(m));
    }
  }

  lemma SamePath(m: Name)
    ensures m.(isDir := false).Path() == m.Path()
  {
  }

  const PLAIN_FLAGS := DirFlags(false, false, false)
  const DOTS := [Full(Name(NoDir, [DOT], true), PLAIN_FLAGS), Full(Name(NoDir, [DOT], false), PLAIN_FLAGS)]

  /** A "." directory sorts before a file called ".", which is then kept beside it. */
  lemma DotClash()
    ensures ListOk(DOTS) && Cleaned(DOTS, DOTS, 2) && DOTS[0].name.Path() == DOTS[1].name.Path()
    ensures DOTS[0].name.isDir && !DOTS[1].name.isDir
  {
    assert Key(DOTS[0].name) == [] && Key(DOTS[1].name) == [46];
    assert CleanAt(DOTS, DOTS, 0, 2) && CleanAt(DOTS, DOTS, 1, 2);
  }

  /** Beside a "." directory the first file of the same path is always left: NoClash holds exactly without one. */
  lemma DotKeeps(s: seq<Slot>, t: seq<Slot>, d: int, f: int)
    requires ListOk(s) && Cleaned(s, t, |s|) && 0 <= d < |s| && 0 <= f < |s| && t[d].Full? && s[f].Full?
    requires t[d].name.IsDot() && !s[f].name.isDir && t[d].name.Path() == s[f].name.Path()
    ensures t[f].Full? <==> First(s, f)
  {
    hide Key, FlagsOf, Name.Path;
    assert CleanAt(s, t, d, |s|) && CleanAt(s, t, f, |s|);
    forall j | f < j < |s| ensures !Kills(s, j, f) {
      if Kills(s, j, f) {
        DotAfter(s, d, f, j);
      }
    }
  }

  lemma DotAfter(s: seq<Slot>, d: int, f: int, j: int)
    requires ListOk(s) && 0 <= d < |s| && 0 <= f < |s| && s[d].Full? && s[f].Full? && First(s, d)
    requires s[d].name.IsDot() && !s[f].name.isDir && s[d].name.Path() == s[f].name.Path() && Kills(s, j, f)
    ensures j < f
  {
    hide Key, Name.Path, Elems, Compare;
    var dot, file, dir := s[d].name, s[f].name, s[j].name;
    EqualNames(dir.(isDir := false), file);
    SamePath(dir);
    KeyParts(dot);
    KeyParts(file);
    KeyParts(dir);
    SplitOnce(Folder(dot), dot.base, Folder(file), file.base);
    SplitOnce(Folder(dir), dir.base, Folder(file), file.base);
    OnlyOne(s, d, j);
    PrefixFirst(Key(dot), Key(file));
    CompareFlips(Key(dot), Key(file));
    KindsDiffer(dot, file);
  }

  /** The flags that are left: any TOP_DIR and CONTENT_DIR of the equal directories, IMPLIED_DIR only if all have it. */
  lemma {:induction false} FlagsMean(s: seq<Slot>, k: int, i: int)
    requires 0 <= k < i <= |s| && s[k].Full? && s[k].name.isDir
    ensures FlagsOf(s, k, i).top <==> exists j :: k <= j < i && Twin(s, k, j) && s[j].flags.top
    ensures FlagsOf(s, k, i).content <==> exists j :: k <= j < i && Twin(s, k, j) && s[j].flags.content
    ensures FlagsOf(s, k, i).implied <==> forall j :: k <= j < i && Twin(s, k, j) ==> s[j].flags.implied
    decreases i - k
  {
    hide Key;
    assert Twin(s, k, k);
    if i > k + 1 {
      FlagsMean(s, k, i - 1);
      assert Twin(s, k, i - 1) || !Twin(s, k, i - 1);
    }
  }

  predicate Twin(s: seq<Slot>, k: int, j: int) {
    0 <= k < |s| && 0 <= j < |s| && s[k].Full? && s[j].Full? && s[j].name.isDir && KeyAt(s, j) == KeyAt(s, k)
  }

  lemma PairsSorted(files: seq<FileSort.File>, s: seq<Slot>)
    requires |s| == |files| && FileSort.AllComparable(FileSort.Entries(files))
    requires var r := FileSort.Sort(files);
      |r| == |s| && forall i :: 0 <= i < |s| ==> r[i].item == (if s[i].Full? then Here(s[i].name) else Gone)
    ensures NamesOk(s) && PairsOk(s)
  {
    hide Key, FileSort.Sort;
    var r, all := FileSort.Sort(files), FileSort.Entries(files);
    FileSort.SortAmong(files, all);
    forall i, j | 0 <= i < |s| && 0 <= j < |s| && s[i].Full? && s[j].Full?
      ensures Comparable(Here(s[i].name), Here(s[j].name))
    {
      assert r[i] in all && r[j] in all;
    }
    forall i | 0 <= i < |s| && s[i].Full? ensures s[i].name.Ok() {
      assert Comparable(Here(s[i].name), Here(s[i].name));
    }
  }

  /** fsort leaves the list as the cleaning wants it. */
  lemma SortedIsOk(files: seq<FileSort.File>, s: seq<Slot>)
    requires |s| == |files| && FileSort.AllComparable(FileSort.Entries(files))
    requires var r := FileSort.Sort(files);
      |r| == |s| && forall i :: 0 <= i < |s| ==> r[i].item == (if s[i].Full? then Here(s[i].name) else Gone)
    ensures ListOk(s)
  {
    hide Key, FileSort.Sort, FileSort.AllComparable, FileSort.Entries, NamesOk, PairsOk;
    FileSort.SortWorks(files);
    var r := FileSort.Sort(files);
    PairsSorted(files, s);
    forall i, j | 0 <= i < j < |s| && s[i].Full?
      ensures s[j].Full? && Compare(KeyAt(s, i), KeyAt(s, j)) <= 0
    {
      assert FileSort.Le(r[i], r[j]);
      if s[j].Full? {
        SharedPrefix([1], KeyAt(s, i), KeyAt(s, j));
      }
    }
  }
}
