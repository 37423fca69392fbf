/** flist.c:2844-2891, 2945-2956: binary search in a list with cleared entries. */
module FlistFind {
  import opened NameOrder

  datatype DirFlags = DirFlags(top: bool, content: bool, implied: bool)

  /** A cleared entry keeps two distances: towards the next entry above, and below. */
  datatype Slot = Empty(up: int, down: int) | Full(name: Name, flags: DirFlags)

  function KeyAt(s: seq<Slot>, i: int): seq<int>
    requires 0 <= i < |s| && s[i].Full?
  {
    Key(s[i].name)
  }

  ghost predicate Ordered(s: seq<Slot>) {
    forall i, j :: 0 <= i < j < |s| && s[i].Full? && s[j].Full? ==> Compare(KeyAt(s, i), KeyAt(s, j)) <= 0
  }

  /** No entry in [a, b). */
  ghost predicate Clear(s: seq<Slot>, a: int, b: int) {
    forall k :: a <= k < b && 0 <= k < |s| ==> s[k].Empty?
  }

  /** From `low` up, no distance jumps over an entry. */
  ghost predicate Skips(s: seq<Slot>, low: int) {
    forall i :: 0 <= i < |s| && low <= i && s[i].Empty? ==> SkipOk(s, i)
  }

  ghost predicate SkipOk(s: seq<Slot>, i: int)
    requires 0 <= i < |s| && s[i].Empty?
  {
    s[i].up >= 1 && s[i].down >= 1 && Clear(s, i, i + s[i].up) && Clear(s, i - s[i].down + 1, i)
  }

  /** The same entries in the same places; only distances may differ. */
  ghost predicate SameBut(s: seq<Slot>, t: seq<Slot>) {
    |s| == |t| && forall i :: 0 <= i < |s| ==> if s[i].Full? then t[i] == s[i] else t[i].Empty?
  }

  /** The window that flist_find searches has an entry at either end. */
  ghost predicate Window(s: seq<Slot>, low: int, high: int) {
    0 <= low <= high < |s| && s[low].Full? && s[high].Full? && Skips(s, low)
  }

  lemma ClearJoin(s: seq<Slot>, a: int, b: int, c: int)
    requires Clear(s, a, b) && Clear(s, b, c)
    ensures Clear(s, a, c)
  {
  }

  lemma StillClear(s: seq<Slot>, t: seq<Slot>, a: int, b: int)
    requires SameBut(s, t) && Clear(s, a, b)
    ensures Clear(t, a, b)
  {
  }

  /** Distances that are right for the entries stay right when one of them is made exact. */
  lemma Shortened(s: seq<Slot>, low: int, i: int, up: int, down: int)
    requires Skips(s, low) && 0 <= i < |s| && s[i].Empty? && up >= 1 && down >= 1
    requires Clear(s, i, i + up) && Clear(s, i - down + 1, i)
    ensures var t := s[i := Empty(up, down)]; SameBut(s, t) && Skips(t, low)
  {
    hide Clear;
    var t := s[i := Empty(up, down)];
    forall k | 0 <= k < |t| && low <= k && t[k].Empty? ensures SkipOk(t, k) {
      StillClear(s, t, k, k + t[k].up);
      StillClear(s, t, k - t[k].down + 1, k);
    }
  }

  /** No comparison of an entry of the window with f runs past the end. */
  ghost predicate Searchable(s: seq<Slot>, low: int, high: int, f: Name) {
    forall i :: low <= i <= high && 0 <= i < |s| && s[i].Full? ==> Comparable(Here(s[i].name), Here(f))
  }

  /** f_name_cmp of two names. */
  method Difference(m: Name, n: Name) returns (dif: int)
    requires Comparable(Here(m), Here(n))
    ensures Sign(dif) == Compare(Key(m), Key(n))
  {
    hide Key, Compare;
    SharedPrefix([1], Key(m), Key(n));
    var r := NameCmp(Here(m), Here(n));
    dif := r.dif;
  }

  class FileTable {
    var sorted: array<Slot>
    var low: int
    var high: int

    constructor (sorted: array<Slot>, low: int, high: int)
      ensures this.sorted == sorted && this.low == low && this.high == high
    {
      this.sorted, this.low, this.high := sorted, low, high;
    }

    method NextAbove(mid: int, ghost top: int) returns (up: int)
      requires 0 <= low < mid < top < sorted.Length && sorted[mid].Empty? && sorted[top].Full? && Skips(sorted[..], low)
      ensures mid < up <= top && sorted[up].Full? && Clear(sorted[..], mid, up)
    {
      ghost var s := sorted[..];
      assert SkipOk(s, mid);
      up := mid + sorted[mid].up;
      while sorted[up].Empty?
        invariant mid < up <= top && Clear(s, mid, up)
        decreases top - up
      {
        assert SkipOk(s, up);
        ClearJoin(s, mid, up, up + s[up].up);
        up := up + sorted[up].up;
      }
    }

    method NextBelow(mid: int, ghost bottom: int) returns (down: int)
      requires 0 <= bottom < mid < sorted.Length && low <= bottom && sorted[mid].Empty? && sorted[bottom].Full?
      requires Skips(sorted[..], low)
      ensures bottom <= down < mid && sorted[down].Full? && Clear(sorted[..], down + 1, mid)
    {
      ghost var s := sorted[..];
      assert SkipOk(s, mid);
      down := mid - sorted[mid].down;
      while sorted[down].Empty?
        invariant bottom <= down < mid && Clear(s, down + 1, mid)
        decreases down - bottom
      {
        assert SkipOk(s, down);
        ClearJoin(s, down, down + 1, mid);
        ClearJoin(s, down - s[down].down + 1, down, mid);
        down := down - sorted[down].down;
      }
    }

    /** flist.c:2858-2864: the next entry above, remembered when the distance was not up to date. */
    method Climb(mid: int, ghost top: int) returns (up: int)
      requires 0 <= low < mid < top < sorted.Length && sorted[mid].Empty? && sorted[top].Full? && Skips(sorted[..], low)
      modifies sorted
      ensures mid < up <= top && sorted[up].Full? && Clear(sorted[..], mid, up)
      ensures SameBut(old(sorted[..]), sorted[..]) && Skips(sorted[..], low)
      ensures sorted[..] == old(sorted[..])[mid := Empty(up - mid, old(sorted[mid].down))]
    {
      hide Clear;
      ghost var s := sorted[..];
      up := NextAbove(mid, top);
      if up != mid + sorted[mid].up {
        assert SkipOk(s, mid);
        Shortened(s, low, mid, up - mid, sorted[mid].down);
        sorted[mid] := Empty(up - mid, sorted[mid].down);
        assert sorted[..] == s[mid := Empty(up - mid, s[mid].down)];
        StillClear(s, sorted[..], mid, up);
      }
    }

    /** flist.c:2868-2874: the next entry below, remembered likewise. */
    method Descend(mid: int, ghost bottom: int) returns (down: int)
      requires 0 <= bottom < mid < sorted.Length && low <= bottom && sorted[mid].Empty? && sorted[bottom].Full?
      requires Skips(sorted[..], low)
      modifies sorted
      ensures bottom <= down < mid && sorted[down].Full? && Clear(sorted[..], down + 1, mid)
      ensures SameBut(old(sorted[..]), sorted[..]) && Skips(sorted[..], low)
      ensures sorted[..] == old(sorted[..])[mid := Empty(old(sorted[mid].up), mid - down)]
    {
      hide Clear;
      ghost var s := sorted[..];
      down := NextBelow(mid, bottom);
      if down != mid - sorted[mid].down {
        assert SkipOk(s, mid);
        Shortened(s, low, mid, sorted[mid].up, mid - down);
        sorted[mid] := Empty(sorted[mid].up, mid - down);
        assert sorted[..] == s[mid := Empty(s[mid].up, mid - down)];
        StillClear(s, sorted[..], down + 1, mid);
      }
    }

    /** flist.c:2850-2876: the entry to compare with, or a lower upper bound when nothing is left above. */
    method Probe(mid: int, hi: int) returns (up: int, h: int)
      requires Window(sorted[..], low, high) && low <= mid <= hi <= high
      modifies sorted
      ensures SameBut(old(sorted[..]), sorted[..]) && Window(sorted[..], low, high)
      ensures mid <= up <= high && sorted[up].Full? && Clear(sorted[..], mid, up)
      ensures up > hi ==> low <= h < mid && Clear(sorted[..], h + 1, mid)
    {
      hide Clear, Skips;
      up, h := mid, mid;
      NothingBetween(sorted[..], mid);
      if sorted[mid].Empty? {
        up := Climb(mid, high);
        if up > hi {
          ghost var s := sorted[..];
          h := Descend(mid, low);
          StillClear(s, sorted[..], mid, up);
        }
      }
    }

    /** flist_find, protocol 29 and later: the entry of this name and kind, exactly when the window has one. */
    method Find(f: Name) returns (r: int)
      requires low > high || Window(sorted[..], low, high)
      requires Ordered(sorted[..]) && Searchable(sorted[..], low, high, f)
      modifies sorted
      ensures SameBut(old(sorted[..]), sorted[..])
      ensures low <= high ==> Window(sorted[..], low, high)
      ensures r == -1 ==> Missing(old(sorted[..]), low, high, Key(f))
      ensures r != -1 ==> low <= r <= high && sorted[r].Full? && Key(sorted[r].name) == Key(f)
    {
      hide Key, Compare, Ordered, Clear, Skips, Comparable;
      ghost var s := sorted[..];
      var lo, hi := low, high;
      while lo <= hi
        invariant low <= lo && hi <= high
        invariant SameBut(s, sorted[..]) && (low <= high ==> Window(sorted[..], low, high))
        invariant Missing(s, low, lo - 1, Key(f)) && Missing(s, hi + 1, high, Key(f))
        decreases hi - lo
      {
        var mid := (lo + hi) / 2;
        var up, h := Probe(mid, hi);
        BackTo(s, sorted[..], mid, up);
        if up > hi {
          BackTo(s, sorted[..], h + 1, mid);
          MissingClear(s, h + 1, mid, hi, up, high, Key(f));
          hi := h;
          continue;
        }
        assert sorted[up] == s[up];
        var diff := Difference(sorted[up].name, f);
        if diff == 0 {
          return up;
        }
        if diff < 0 {
          AllBelow(s, low, up, Key(f));
          lo := up + 1;
        } else {
          AllAbove(s, mid, up, high, Key(f));
          hi := mid - 1;
        }
      }
      MissingAll(s, low, lo, hi, high, Key(f));
      return -1;
    }
  }

  /** No entry in [a, b] has this key. */
  ghost predicate Missing(s: seq<Slot>, a: int, b: int, k: seq<int>) {
    forall i :: a <= i <= b && 0 <= i < |s| && s[i].Full? ==> KeyAt(s, i) != k
  }

  lemma NothingBetween(s: seq<Slot>, a: int)
    ensures Clear(s, a, a)
  {
  }

  lemma BackTo(s: seq<Slot>, t: seq<Slot>, a: int, b: int)
    requires SameBut(s, t) && Clear(t, a, b)
    ensures Clear(s, a, b)
  {
  }

  lemma MissingClear(s: seq<Slot>, a: int, mid: int, hi: int, up: int, high: int, k: seq<int>)
    requires a <= mid <= hi < up && Clear(s, a, mid) && Clear(s, mid, up) && Missing(s, hi + 1, high, k)
    ensures Missing(s, a, high, k)
  {
    hide Key;
  }

  lemma AllBelow(s: seq<Slot>, low: int, up: int, k: seq<int>)
    requires Ordered(s) && 0 <= up < |s| && s[up].Full? && Compare(KeyAt(s, up), k) < 0
    ensures Missing(s, low, up, k)
  {
    hide Key;
    forall i | low <= i <= up && 0 <= i < |s| && s[i].Full? ensures KeyAt(s, i) != k {
      if i < up {
        CompareChains(KeyAt(s, i), KeyAt(s, up), k);
      }
    }
  }

  lemma AllAbove(s: seq<Slot>, mid: int, up: int, high: int, k: seq<int>)
    requires Ordered(s) && 0 <= mid <= up < |s| && s[up].Full? && Compare(KeyAt(s, up), k) > 0 && Clear(s, mid, up)
    ensures Missing(s, mid, high, k)
  {
    hide Key;
    CompareFlips(KeyAt(s, up), k);
    forall i | mid <= i <= high && 0 <= i < |s| && s[i].Full? ensures KeyAt(s, i) != k {
      if i > up {
        CompareChains(k, KeyAt(s, up), KeyAt(s, i));
      }
    }
  }

  lemma MissingAll(s: seq<Slot>, low: int, lo: int, hi: int, high: int, k: seq<int>)
    requires hi < lo && Missing(s, low, lo - 1, k) && Missing(s, hi + 1, high, k)
    ensures Missing(s, low, high, k)
  {
    hide Key;
  }
}
