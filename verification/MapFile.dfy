/** fileio.c:34-42, 227-431: sliding-window access to a file. */
module MapFile {
  import opened Bytes

  const ALIGN_BOUNDARY := 1024
  const DIRECT_ALIGNMENT := 4096

  function Overshoot(offset: int, unit: nat): int
    requires unit > 0
  {
    offset % unit
  }

  /** Rounded up to the next boundary. */
  function Aligned(len: int): (r: int)
    requires len > 0
    ensures len <= r < len + ALIGN_BOUNDARY
  {
    ((len - 1) / ALIGN_BOUNDARY + 1) * ALIGN_BOUNDARY
  }

  datatype Mode = Cached | Direct | Mapped(page: nat) | Synthetic

  /** A request is answered by a position in the window, or by none. */
  datatype Answer = Null | At(k: int) | InvalidLen | InvalidReadSize

  /** The window that is wanted for a request: where it starts, and how long it is. */
  function WindowStart(mode: Mode, offset: int): int
    requires mode.Mapped? ==> mode.page > 0
  {
    offset - Overshoot(offset, if mode.Mapped? then mode.page else if mode.Direct? then DIRECT_ALIGNMENT else ALIGN_BOUNDARY)
  }

  function WindowSize(mode: Mode, size: int, def: int, start: int, offset: int, len: int): int
    requires start <= offset && len > 0
  {
    var want := if start + def > size then size - start else def;
    var need := len + (offset - start);
    if want >= need then want
    else if mode.Cached? || mode.Synthetic? then Aligned(need)
    else need
  }

  lemma WindowCovers(mode: Mode, size: int, def: int, offset: int, len: int)
    requires mode.Mapped? ==> mode.page > 0
    requires 0 <= offset && 0 < len && offset + len <= size
    ensures var start := WindowStart(mode, offset);
      && 0 <= start <= offset
      && var n := WindowSize(mode, size, def, start, offset, len);
      && offset + len <= start + n && n > 0
      && (mode.Direct? || mode.Mapped? || len + (offset - start) <= def ==> start + n <= size)
  {
    var unit: nat := if mode.Mapped? then mode.page else if mode.Direct? then DIRECT_ALIGNMENT else ALIGN_BOUNDARY;
    ModSmaller(offset, unit);
  }

  lemma Floor(x: int, unit: int)
    requires unit > 0
    ensures x - x % unit == x / unit * unit && 0 <= x % unit < unit
  {
  }

  /** A window starts at the boundary before the request. */
  lemma StartIs(mode: Mode, offset: int)
    requires mode.Mapped? ==> mode.page > 0
    ensures var start := WindowStart(mode, offset);
      var unit := if mode.Mapped? then mode.page else if mode.Direct? then DIRECT_ALIGNMENT else ALIGN_BOUNDARY;
      start == offset / unit * unit && start <= offset < start + unit
  {
    Floor(offset, if mode.Mapped? then mode.page else if mode.Direct? then DIRECT_ALIGNMENT else ALIGN_BOUNDARY);
  }

  /** It has the default size unless the file ends before or the request needs more. */
  lemma WindowIs(mode: Mode, size: int, def: int, offset: int, len: int)
    requires mode.Mapped? ==> mode.page > 0
    requires 0 <= offset && 0 < len && offset + len <= size
    ensures WindowStart(mode, offset) <= offset
    ensures var start := WindowStart(mode, offset);
      var n, need := WindowSize(mode, size, def, start, offset, len), len + (offset - start);
      && (need <= def && start + def <= size ==> n == def)
      && (start + def > size ==> start + n == size || n < need + ALIGN_BOUNDARY)
      && (need > def ==> need <= n < need + ALIGN_BOUNDARY)
  {
    hide WindowStart;
    StartIs(mode, offset);
  }

  /** A cached window that has to be longer than the default one, and whose rounded length does not fit the file. */
  predicate Spills(size: int, def: int, offset: int, len: int)
    requires len > 0
  {
    var start := WindowStart(Cached, offset);
    var need := len + (offset - start);
    start <= offset && def < need && start + Aligned(need) > size
  }

  lemma PastTheEnd(mode: Mode, size: int, def: int, offset: int, len: int)
    requires mode.Mapped? ==> mode.page > 0
    requires 0 <= offset && 0 < len && offset + len <= size && 0 < def
    ensures var start := WindowStart(mode, offset);
      && 0 <= start <= offset
      && (mode.Direct? || mode.Mapped? ==> start + WindowSize(mode, size, def, start, offset, len) <= size)
      && (mode.Cached? ==> (start + WindowSize(mode, size, def, start, offset, len) > size <==> Spills(size, def, offset, len)))
  {
    WindowCovers(mode, size, def, offset, len);
  }

  lemma ModSmaller(a: int, unit: nat)
    requires a >= 0 && unit > 0
    ensures 0 <= a % unit <= a
  {
    var q := a / unit;
    assert a == q * unit + a % unit;
    assert q >= 0;
    assert q * unit >= 0;
  }

  /** What a position of the file reads as: a counter in synthetic mode, zero past the end otherwise. */
  function ByteAt(mode: Mode, file: seq<byte>, i: int): byte
    requires i >= 0
  {
    if mode.Synthetic? then i % 256 else if i < |file| then file[i] else 0
  }

  /** The first n bytes of the buffer are the file's from `offset` on. */
  ghost predicate Holds(mode: Mode, file: seq<byte>, p: seq<byte>, offset: int, n: int) {
    0 <= offset && n <= |p| && forall j :: 0 <= j < n ==> p[j] == ByteAt(mode, file, offset + j)
  }

  /** The bytes of a request. */
  function Slice(mode: Mode, file: seq<byte>, offset: nat, len: nat): seq<byte> {
    seq<byte>(len, j requires j >= 0 => ByteAt(mode, file, offset + j))
  }

  lemma HoldsSlice(mode: Mode, file: seq<byte>, p: seq<byte>, start: int, n: int, offset: int, len: int)
    requires Holds(mode, file, p, start, n) && start <= offset && 0 < len && offset + len <= start + n
    ensures p[offset - start..offset - start + len] == Slice(mode, file, offset, len)
  {
    var k := offset - start;
    forall j | 0 <= j < len ensures p[k..k + len][j] == Slice(mode, file, offset, len)[j] {
      assert p[k + j] == ByteAt(mode, file, start + (k + j));
    }
  }

  /** The read size, rounded up to whole blocks. */
  function WholeBlocks(readSize: int, blockSize: int): (n: int)
    requires readSize > 0 && blockSize >= 0
    ensures n >= readSize
  {
    if blockSize > 0 && readSize % blockSize > 0 then readSize + (blockSize - readSize % blockSize) else readSize
  }

  datatype Win = Win(offset: int, len: int, fdOffset: int, failed: bool)

  /** How much of a new window an old one that ends in it already holds. */
  function Overlap(w: Win, start: int, n: int): (k: int)
    requires 0 <= n
    ensures 0 <= k <= n
  {
    if w.offset <= start < w.offset + w.len <= start + n then w.offset + w.len - start else 0
  }

  class Map {
    const mode: Mode
    const file: seq<byte>
    const size: nat
    const defSize: int
    /** Reads fail only at the end of the file, and a direct read returns all there is. */
    const reliable: bool
    var p: array<byte>
    var w: Win
    /** How many bytes cached reads have returned. */
    ghost var got: nat

    /** A window shows the file if no read fell short of what there is. */
    ghost predicate Trusted()
      reads this
    {
      reliable || !w.failed
    }

    ghost predicate Valid()
      reads this, p
    {
      && (mode.Mapped? ==> mode.page > 0) && (!mode.Synthetic? ==> size == |file|) && defSize > 0
      && 0 <= w.offset && 0 <= w.len <= p.Length && 0 <= w.fdOffset
      && (Trusted() ==> Holds(mode, file, p[..], w.offset, w.len))
    }

    /** map_file, fileio.c:227-249. */
    constructor (mode: Mode, file: seq<byte>, size: nat, readSize: int, blockSize: int, reliable: bool)
      requires (mode.Mapped? ==> mode.page > 0) && (!mode.Synthetic? ==> size == |file|)
      requires readSize > 0 && blockSize >= 0
      ensures Valid() && fresh(p) && w == Win(0, 0, 0, false) && got == 0
      ensures this.mode == mode && this.file == file && this.size == size && this.reliable == reliable
      ensures defSize == Aligned(WholeBlocks(readSize, blockSize)) >= readSize
    {
      this.mode, this.file, this.size, this.reliable := mode, file, size, reliable;
      defSize := Aligned(WholeBlocks(readSize, blockSize));
      p := new byte[0];
      w, got := Win(0, 0, 0, false), 0;
    }

    /** realloc_array: a larger buffer with the same beginning. */
    method Grow(n: int)
      requires n > 0
      modifies this`p
      ensures n <= p.Length && old(p.Length) <= p.Length && p[..old(p.Length)] == old(p[..])
      ensures p == old(p) || fresh(p)
    {
      if n > p.Length {
        var q := new byte[n];
        for i := 0 to p.Length
          invariant p == old(p) && p.Length < q.Length && q[..i] == p[..i]
        {
          q[i] := p[i];
        }
        assert q[..p.Length] == p[..];
        p := q;
      }
    }

    /** read() at the file's position: at most n bytes, none at the end of the file or on an error. */
    method Read(at: int, n: int) returns (k: int)
      requires 0 <= at && 0 < n && at + n <= p.Length && 0 <= w.fdOffset && !mode.Synthetic?
      modifies p
      ensures -1 <= k <= n && (reliable && w.fdOffset < |file| ==> k > 0) && (k > 0 ==> w.fdOffset + k <= |file|)
      ensures forall j :: 0 <= j < p.Length ==>
        p[j] == if at <= j < at + k then ByteAt(mode, file, w.fdOffset + (j - at)) else old(p[j])
    {
      var avail := |file| - w.fdOffset;
      var ok := *;
      if avail > 0 && (reliable || ok) {
        k :| 1 <= k <= if avail < n then avail else n;
        for i := 0 to k
          invariant forall j :: 0 <= j < p.Length ==>
            p[j] == if at <= j < at + i then ByteAt(mode, file, w.fdOffset + (j - at)) else old(p[j])
        {
          p[at + i] := file[w.fdOffset + i];
        }
      } else {
        k := if ok then 0 else -1;
      }
    }

    /** pread() into the start of the buffer: all that the file has there, unless the system lets it fall short. */
    method PRead(n: int) returns (k: int)
      requires 0 < n <= p.Length && 0 <= w.fdOffset < |file| && !mode.Synthetic?
      modifies p
      ensures -1 <= k <= n && (reliable ==> k == if n < |file| - w.fdOffset then n else |file| - w.fdOffset)
      ensures forall j :: 0 <= j < k ==> p[j] == ByteAt(mode, file, w.fdOffset + j)
    {
      var most := if n < |file| - w.fdOffset then n else |file| - w.fdOffset;
      k := most;
      if !reliable {
        k :| -1 <= k <= most;
      }
      for i := 0 to if k > 0 then k else 0
        invariant forall j :: 0 <= j < i ==> p[j] == ByteAt(mode, file, w.fdOffset + j)
      {
        p[i] := file[w.fdOffset + i];
      }
    }

    /** fileio.c:415-428: reads until the window is full; zeros for what cannot be read. */
    method ReadAll(start: int, n: int)
      requires 0 <= start && 0 <= n && start + n <= p.Length && 0 <= w.fdOffset && !mode.Synthetic?
      modifies p, this`w, this`got
      ensures w == old(w).(fdOffset := w.fdOffset, failed := w.failed) && 0 <= w.fdOffset
      ensures got <= old(got) + n && (!w.failed || (reliable && old(w.fdOffset) + n <= |file|) ==> got == old(got) + n)
      ensures old(w.failed) ==> w.failed
      ensures reliable && old(w.fdOffset) + n <= |file| ==> w.failed == old(w.failed)
      ensures n > 0 && old(w.fdOffset) + n > |file| ==> w.failed
      ensures forall j :: 0 <= j < start || start + n <= j < p.Length ==> p[j] == old(p[j])
      ensures reliable || !w.failed ==>
        forall j :: start <= j < start + n ==> p[j] == ByteAt(mode, file, old(w.fdOffset) + (j - start))
    {
      var at, left := start, n;
      while left > 0
        invariant start <= at && 0 <= left && at + left == start + n
        invariant w == old(w).(fdOffset := old(w.fdOffset) + (at - start)) && got == old(got) + (at - start)
        invariant at > start ==> w.fdOffset <= |file|
        invariant forall j :: 0 <= j < start || start + n <= j < p.Length ==> p[j] == old(p[j])
        invariant forall j :: start <= j < at ==> p[j] == ByteAt(mode, file, old(w.fdOffset) + (j - start))
      {
        var k := Read(at, left);
        if k <= 0 {
          w := w.(failed := true);
          ZeroFill(at, left);
          return;
        }
        w, got := w.(fdOffset := w.fdOffset + k), got + k;
        at, left := at + k, left - k;
      }
    }

    method ZeroFill(at: int, n: int)
      requires 0 <= at && 0 <= n && at + n <= p.Length
      modifies p
      ensures forall j :: 0 <= j < p.Length ==> p[j] == if at <= j < at + n then 0 else old(p[j])
    {
      for i := 0 to n
        invariant forall j :: 0 <= j < p.Length ==> p[j] == if at <= j < at + i then 0 else old(p[j])
      {
        p[at + i] := 0;
      }
    }

    /** memmove towards the front. */
    method MoveDown(from: int, n: int)
      requires 0 <= from && 0 <= n && from + n <= p.Length
      modifies p
      ensures forall j :: 0 <= j < n ==> p[j] == old(p[from + j])
    {
      for i := 0 to n
        invariant forall j :: 0 <= j < i ==> p[j] == old(p[from + j])
        invariant forall j :: i <= j < p.Length ==> p[j] == old(p[j])
      {
        p[i] := p[from + i];
      }
    }

    /** fileio.c:381-391: what the old window has of the new one moves to the front. */
    method Keep(start: int, n: int) returns (kept: int)
      requires Valid() && mode.Cached? && 0 <= start && 0 < n <= p.Length
      modifies p
      ensures kept == Overlap(w, start, n)
      ensures Trusted() ==> forall j :: 0 <= j < kept ==> p[j] == ByteAt(mode, file, start + j)
    {
      kept := 0;
      if w.offset <= start < w.offset + w.len <= start + n {
        kept := w.offset + w.len - start;
        MoveDown(w.len - kept, kept);
      }
    }

    /** fileio.c:378-428: keeps what the old window already has, and reads the rest. */
    method FillCached(start: int, n: int, ghost offset: int, ghost len: int) returns (ok: bool)
      requires Valid() && mode.Cached? && 0 <= start <= offset && 0 < len && offset + len <= start + n
      requires !(w.offset <= offset && offset + len <= w.offset + w.len)
      modifies this, p
      ensures p == old(p) || fresh(p)
      ensures ok && Valid() && w.offset == start && w.len == n
      ensures old(w.failed) ==> w.failed
      ensures reliable ==> (w.failed <==> old(w.failed) || start + n > |file|)
      ensures got <= old(got) + (n - Overlap(old(w), start, n))
      ensures reliable && start + n <= |file| ==> got == old(got) + (n - Overlap(old(w), start, n))
    {
      Grow(n);
      var kept := Keep(start, n);
      if n - kept <= 0 {
        return false;
      }
      w := Win(start, n, start + kept, w.failed);
      ReadAll(kept, n - kept);
      return true;
    }

    /** fileio.c:336-368: one aligned read into a buffer of its own. */
    method FillDirect(start: int, n: int)
      requires Valid() && mode.Direct? && 0 <= start && 0 < n && start + n <= |file|
      modifies this, p
      ensures p == old(p) || fresh(p)
      ensures Valid() && w.offset == start && w.len == n
      ensures old(w.failed) ==> w.failed
      ensures reliable ==> w.failed == old(w.failed)
    {
      var fdOffset := w.fdOffset;
      var direct := ((n - 1) / DIRECT_ALIGNMENT + 1) * DIRECT_ALIGNMENT;
      if direct > p.Length {
        p := new byte[direct];
      }
      w := Win(start, n, start, w.failed);
      var k := PRead(direct);
      if k < n {
        var got := if k < 0 then 0 else k;
        w := w.(failed := true);
        ZeroFill(got, n - got);
      }
      w := w.(fdOffset := fdOffset);
    }

    /** fileio.c:299-325: the window is the mapping; a mapping that fails ends the program. */
    method FillMapped(start: int, n: int)
      requires Valid() && mode.Mapped? && 0 <= start && 0 < n && start + n <= |file|
      modifies this
      ensures fresh(p)
      ensures Valid() && w.offset == start && w.len == n && w.failed == old(w.failed)
    {
      var view := file[start..start + n];
      p := new byte[n](i requires 0 <= i < |view| => view[i]);
      w := w.(offset := start, len := n);
    }

    method CopyPattern(start: int, at: int, from: int, amount: int)
      requires mode.Synthetic? && Holds(mode, file, p[..], start, at) && 0 <= at && 0 <= amount && at + amount <= p.Length
      requires from == (start + at) % 256 && from + amount <= 256
      modifies p
      ensures Holds(mode, file, p[..], start, at + amount)
    {
      for i := 0 to amount
        invariant Holds(mode, file, p[..], start, at + i)
      {
        p[at + i] := from + i;
      }
    }

    /** fileio.c:270-297: the counter pattern, copied in runs that end with the pattern. */
    method FillSynthetic(start: int, n: int)
      requires Valid() && mode.Synthetic? && 0 <= start && 0 < n
      modifies this, p
      ensures p == old(p) || fresh(p)
      ensures Valid() && w.offset == start && w.len == n && w.failed == old(w.failed)
    {
      Grow(n);
      var j := 0;
      while j < n
        invariant 0 <= j <= n && p.Length >= n && (p == old(p) || fresh(p)) && w == old(w)
        invariant Holds(mode, file, p[..], start, j)
      {
        var from := (start + j) % 256;
        var amount := if n - j < 256 - from then n - j else 256 - from;
        CopyPattern(start, j, from, amount);
        j := j + amount;
      }
      w := w.(offset := start, len := n);
    }

    /** A new window around the request. */
    method Slide(offset: int, len: int) returns (ok: bool)
      requires Valid() && 0 <= offset && 0 < len && offset + len <= size
      requires !(w.offset <= offset && offset + len <= w.offset + w.len)
      modifies this, p
      ensures p == old(p) || fresh(p)
      ensures ok && Valid() && w.offset <= offset && offset + len <= w.offset + w.len && (old(w.failed) ==> w.failed)
      ensures reliable ==> (w.failed <==> old(w.failed) || (mode.Cached? && Spills(size, defSize, offset, len)))
      ensures w.offset == WindowStart(mode, offset) && w.len == WindowSize(mode, size, defSize, w.offset, offset, len)
      ensures mode.Cached? ==> got <= old(got) + (w.len - Overlap(old(w), w.offset, w.len))
    {
      hide Holds, WindowStart, WindowSize, Spills;
      var start := WindowStart(mode, offset);
      WindowCovers(mode, size, defSize, offset, len);
      PastTheEnd(mode, size, defSize, offset, len);
      var n := WindowSize(mode, size, defSize, start, offset, len);
      ok := true;
      match mode
      case Synthetic => FillSynthetic(start, n);
      case Mapped(_) => FillMapped(start, n);
      case Direct => FillDirect(start, n);
      case Cached => ok := FillCached(start, n, offset, len);
    }

    /** map_ptr: the bytes of the request, in every mode; the window is reused when it covers the request. While reads do
        not fail, a status is set exactly by a new cached window that spills over the end of the file. */
    method MapPtr(offset: int, len: int) returns (a: Answer)
      requires Valid() && 0 <= offset && offset + len <= size
      modifies this, p
      ensures p == old(p) || fresh(p)
      ensures Valid() && (old(w.failed) ==> w.failed)
      ensures len == 0 ==> a == Null
      ensures len < 0 ==> a == InvalidLen
      ensures len > 0 ==> a.At? && 0 <= a.k && a.k + len <= p.Length
      ensures len > 0 && Trusted() ==> p[a.k..a.k + len] == Slice(mode, file, offset, len)
      ensures len > 0 && reliable ==>
        (w.failed <==> old(w.failed) || (mode.Cached? && Spills(size, defSize, offset, len)
                                         && !(old(w.offset) <= offset && offset + len <= old(w.offset + w.len))))
      ensures len <= 0 || (old(w.offset) <= offset && offset + len <= old(w.offset + w.len)) ==>
        p == old(p) && p[..] == old(p[..]) && w == old(w) && got == old(got)
      ensures len > 0 && !(old(w.offset) <= offset && offset + len <= old(w.offset + w.len)) ==>
        w.offset == WindowStart(mode, offset) && w.len == WindowSize(mode, size, defSize, w.offset, offset, len)
      ensures mode.Cached? ==> got <= old(got) + (w.len - Overlap(old(w), w.offset, w.len))
    {
      hide Holds, Slice, Spills, WindowStart, WindowSize;
      if len == 0 {
        return Null;
      }
      if len < 0 {
        return InvalidLen;
      }
      if !(w.offset <= offset && offset + len <= w.offset + w.len) {
        var ok := Slide(offset, len);
        if !ok {
          return InvalidReadSize;
        }
      }
      if Trusted() {
        HoldsSlice(mode, file, p[..], w.offset, w.len, offset, len);
        assert p[..][offset - w.offset..offset - w.offset + len] == p[offset - w.offset..offset - w.offset + len];
      }
      return At(offset - w.offset);
    }
  }

  /** In-range bytes that are reported missing: 2500 of a file of 3000, through a window of 1024. */
  method SpillExample() returns (m: Map, a: Answer)
    ensures fresh(m) && m.reliable && m.mode == Cached && |m.file| == 3000 && m.defSize == 1024
    ensures a.At? && 0 <= a.k && a.k + 2500 <= m.p.Length && m.p[a.k..a.k + 2500] == Slice(Cached, m.file, 0, 2500)
    ensures m.w.failed
  {
    hide Holds, Slice, ByteAt;
    m := new Map(Cached, Zeros(3000), 3000, 1024, 0, true);
    assert Spills(3000, 1024, 0, 2500);
    a := m.MapPtr(0, 2500);
  }
}
