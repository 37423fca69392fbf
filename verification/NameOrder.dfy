/** flist.c:3249-3398: f_name_cmp, the order of a file list (protocol 29 and later), as a comparison of keys. */
module NameOrder {
  import opened Bytes

  const DOT: byte := 46
  const SLASH: byte := 47

  /** A dirname is a shared string: two entries of one directory usually hold the same pointer. */
  datatype Dirname = NoDir | DirAt(address: int, path: seq<byte>)

  datatype Name = Name(dir: Dirname, base: seq<byte>, isDir: bool)
  {
    /** C strings, and a basename is one non-empty path element. */
    predicate Ok() {
      && 0 !in base && base != [] && SLASH !in base
      && (dir.DirAt? ==> 0 !in dir.path)
    }

    predicate IsDot() {
      isDir && base == [DOT]
    }

    /** The whole path. */
    function Path(): seq<byte> {
      if dir.NoDir? then base else dir.path + [SLASH] + base
    }
  }

  /** The same address holds the same string. */
  predicate OneHeap(m: Name, n: Name) {
    m.dir.DirAt? && n.dir.DirAt? && m.dir.address == n.dir.address ==> m.dir.path == n.dir.path
  }

  predicate SamePointer(m: Name, n: Name) {
    (m.dir.NoDir? && n.dir.NoDir?) || (m.dir.DirAt? && n.dir.DirAt? && m.dir.address == n.dir.address)
  }

  // ---------- keys ----------

  /** A character with its type: every path character is greater than every item character. */
  function Elem(path: bool, c: byte): int {
    c as int + if path then 256 else 0
  }

  function Elems(path: bool, s: seq<byte>): (k: seq<int>)
    ensures |k| == |s| && forall i :: 0 <= i < |s| ==> k[i] == Elem(path, s[i])
  {
    if s == [] then [] else [Elem(path, s[0])] + Elems(path, s[1..])
  }

  const END := Elem(true, SLASH)

  function BaseKey(n: Name): seq<int> {
    if n.IsDot() then [] else if n.isDir then Elems(true, n.base) + [END] else Elems(false, n.base)
  }

  function Key(n: Name): seq<int> {
    if n.dir.NoDir? then BaseKey(n) else Elems(true, n.dir.path) + [END] + BaseKey(n)
  }

  function KeyFrom(n: Name, useDir: bool): seq<int> {
    if useDir then Key(n) else BaseKey(n)
  }

  /** Dictionary order, as -1, 0 or 1. */
  function Compare(a: seq<int>, b: seq<int>): (r: int)
    ensures r == 0 <==> a == b
  {
    if a == [] || b == [] then (if b != [] then -1 else if a != [] then 1 else 0)
    else if a[0] != b[0] then (if a[0] < b[0] then -1 else 1)
    else
      assert a == [a[0]] + a[1..] && b == [b[0]] + b[1..];
      Compare(a[1..], b[1..])
  }

  function Sign(x: int): int {
    if x < 0 then -1 else if x > 0 then 1 else 0
  }

  // ---------- the comparator's two cursors ----------

  datatype State = InDir | AtSlash | InBase | Trailing

  datatype Cursor = Cursor(state: State, path: bool, text: seq<byte>)
  {
    function Char(): int {
      if text == [] then 0 else text[0]
    }

    predicate Valid(n: Name) {
      && 0 !in text
      && match state
         case InDir => path
         case AtSlash => path && (text == [] || text == [SLASH])
         case InBase => path == n.isDir
         case Trailing => text == [] || (text == [SLASH] && path)
    }
  }

  function AtBase(n: Name): Cursor {
    if n.IsDot() then Cursor(Trailing, false, []) else Cursor(InBase, n.isDir, n.base)
  }

  /** One move of the state machine, at the end of a string. */
  function Next(n: Name, c: Cursor): Cursor {
    match c.state
    case InDir => Cursor(AtSlash, c.path, [SLASH])
    case AtSlash => AtBase(n)
    case InBase => if c.path then Cursor(Trailing, true, [SLASH]) else Cursor(Trailing, false, [])
    case Trailing => Cursor(Trailing, false, c.text)
  }

  /** The part of the key a cursor has still to deliver. */
  function Rest(n: Name, c: Cursor): seq<int> {
    match c.state
    case InDir => Elems(true, c.text) + [END] + BaseKey(n)
    case AtSlash => Elems(true, c.text) + BaseKey(n)
    case InBase => Elems(c.path, c.text) + if c.path then [END] else []
    case Trailing => Elems(c.path, c.text)
  }

  lemma NextKeepsRest(n: Name, c: Cursor)
    requires n.Ok() && c.Valid(n) && c.text == []
    ensures var d := Next(n, c);
      d.Valid(n) && Rest(n, d) == Rest(n, c) && (d.text == [] ==> !d.path && d.state == Trailing && Rest(n, d) == [])
      && (d.text == [] <==> AtLast(c) || (c.state == AtSlash && n.IsDot()))
      && (Hidden(n, c) ==> !AtLast(c) && (d.text != [] ==> Hidden(n, d)))
  {
    assert Elems(true, [SLASH]) == [END];
    assert [END] + BaseKey(n) == [] + [END] + BaseKey(n);
    assert [] + BaseKey(n) == BaseKey(n);
    assert Elems(n.isDir, n.base) + [] == Elems(n.isDir, n.base);
  }

  function Step(c: Cursor): Cursor
    requires c.text != []
  {
    c.(text := c.text[1..])
  }

  lemma StepRest(n: Name, c: Cursor)
    requires c.Valid(n) && c.text != []
    ensures Step(c).Valid(n)
    ensures Rest(n, c) == [Elem(c.path, c.text[0])] + Rest(n, Step(c))
  {
    var first, more := [Elem(c.path, c.text[0])], Elems(c.path, c.text[1..]);
    assert Elems(c.path, c.text) == first + more;
    match c.state
    case InDir => assert first + more + [END] + BaseKey(n) == first + (more + [END] + BaseKey(n));
    case AtSlash => assert first + more + BaseKey(n) == first + (more + BaseKey(n));
    case InBase =>
      var last := if c.path then [END] else [];
      assert first + more + last == first + (more + last);
    case Trailing =>
  }

  // ---------- f_name_cmp ----------

  /** `PastEnd`: both strings are at their terminator and the loop steps over it. */
  datatype Outcome = Compared(dif: int, prefix: bool) | PastEnd

  function StartAt(n: Name, useDir: bool): Cursor {
    if useDir && n.dir.DirAt? then Cursor(InDir, true, n.dir.path) else AtBase(n)
  }

  lemma StartRest(n: Name, useDir: bool)
    requires n.Ok()
    ensures var c := StartAt(n, useDir);
      c.Valid(n) && (c.text == [] ==> c.state == InDir || (c.state == Trailing && !c.path && Rest(n, c) == []))
    ensures Rest(n, StartAt(n, useDir)) == KeyFrom(n, useDir)
  {
    assert Elems(n.isDir, n.base) + [] == Elems(n.isDir, n.base);
  }

  /** The last string of the second name is used up: found_prefix. */
  predicate AtLast(c: Cursor) {
    c.text == [] && (c.state == Trailing || (c.state == InBase && !c.path))
  }

  /** The first element still to come carries the cursor's type. */
  lemma HeadType(n: Name, c: Cursor)
    requires n.Ok() && c.Valid(n) && (c.text == [] ==> c.state == InDir || (c.state == Trailing && !c.path))
    ensures c.path ==> Rest(n, c) != [] && Rest(n, c)[0] >= 256
    ensures !c.path ==> Rest(n, c) == [] || Rest(n, c)[0] < 256
    ensures c.text != [] ==> Rest(n, c) != []
  {
    if c.text != [] {
      StepRest(n, c);
    }
  }

  lemma TypesDiffer(n1: Name, n2: Name, c1: Cursor, c2: Cursor)
    requires n1.Ok() && n2.Ok() && c1.Valid(n1) && c2.Valid(n2) && c1.path != c2.path
    requires c1.text == [] ==> c1.state == InDir || (c1.state == Trailing && !c1.path)
    requires c2.text == [] ==> c2.state == InDir || (c2.state == Trailing && !c2.path)
    ensures Compare(Rest(n1, c1), Rest(n2, c2)) == (if c1.path then 1 else -1)
    ensures Rest(n2, c2) <= Rest(n1, c1) <==> Rest(n2, c2) == []
    ensures c2.text != [] ==> Rest(n2, c2) != []
  {
    hide Rest;
    HeadType(n1, c1);
    HeadType(n2, c2);
  }

  lemma CharsDiffer(n1: Name, n2: Name, c1: Cursor, c2: Cursor)
    requires c1.Valid(n1) && c2.Valid(n2) && c1.path == c2.path && c1.Char() != c2.Char()
    requires c1.text == [] ==> Rest(n1, c1) == []
    requires c2.text == [] ==> Rest(n2, c2) == []
    ensures Compare(Rest(n1, c1), Rest(n2, c2)) == Sign(c1.Char() - c2.Char())
    ensures c2.text != [] ==> !(Rest(n2, c2) <= Rest(n1, c1))
  {
    hide Rest;
    if c1.text != [] {
      StepRest(n1, c1);
    }
    if c2.text != [] {
      StepRest(n2, c2);
    }
  }

  lemma CharsAgree(n1: Name, n2: Name, c1: Cursor, c2: Cursor)
    requires c1.Valid(n1) && c2.Valid(n2) && c1.path == c2.path && c1.Char() == c2.Char() && c1.text != []
    ensures c2.text != []
    ensures var d1, d2 := Rest(n1, Step(c1)), Rest(n2, Step(c2));
      && Compare(Rest(n1, c1), Rest(n2, c2)) == Compare(d1, d2)
      && (Rest(n2, c2) <= Rest(n1, c1) <==> d2 <= d1)
  {
    hide Rest;
    StepRest(n1, c1);
    StepRest(n2, c2);
    var e := [Elem(c1.path, c1.text[0])];
    var d1, d2 := Rest(n1, Step(c1)), Rest(n2, Step(c2));
    assert (e + d1)[1..] == d1 && (e + d2)[1..] == d2;
    if e + d2 <= e + d1 {
      assert (e + d1)[..|d2| + 1][1..] == d1[..|d2|];
    }
  }

  lemma NoNul(n: Name, c: Cursor)
    requires c.Valid(n)
    ensures c.Char() == 0 <==> c.text == []
  {
  }

  datatype Pass = Done(r: Outcome) | Go(c1: Cursor, c2: Cursor)

  /** A "." directory whose dirname has not been read to its end. */
  predicate Hidden(n: Name, c: Cursor) {
    n.IsDot() && (c.state == InDir || c.state == AtSlash)
  }

  /** A pass either decides as the keys do, or drops one equal element from each. */
  ghost predicate PassOk(n1: Name, n2: Name, c1: Cursor, c2: Cursor, p: Pass) {
    var k1, k2 := Rest(n1, c1), Rest(n2, c2);
    match p
    case Done(PastEnd) => k1 == k2 && Hidden(n2, c2)
    case Done(Compared(dif, prefix)) =>
      && Sign(dif) == Compare(k1, k2) && (prefix <==> k2 <= k1 && !Hidden(n2, c2))
      && (k1 == k2 ==> !Hidden(n2, c2))
    case Go(d1, d2) =>
      && d1.Valid(n1) && d2.Valid(n2) && d1.path == d2.path
      && Compare(Rest(n1, d1), Rest(n2, d2)) == Compare(k1, k2)
      && (Rest(n2, d2) <= Rest(n1, d1) <==> k2 <= k1)
      && |Rest(n1, d1)| < |k1|
      && (n2.IsDot() ==> Hidden(n2, c2) && Hidden(n2, d2))
  }

  /** The body of the loop, flist.c:3320-3381. */
  method OnePass(n1: Name, n2: Name, at1: Cursor, at2: Cursor) returns (p: Pass)
    requires n1.Ok() && n2.Ok() && at1.Valid(n1) && at2.Valid(n2) && at1.path == at2.path
    requires n2.IsDot() ==> Hidden(n2, at2) || at2 == AtBase(n2)
    ensures PassOk(n1, n2, at1, at2, p)
  {
    hide Rest, Key, BaseKey, Compare, Elems, Cursor.Valid, Name.Ok, Next;
    var c1, c2 := at1, at2;
    if c1.text == [] {
      NextKeepsRest(n1, c1);
      c1 := Next(n1, c1);
      if c2.text != [] && c1.path != c2.path {
        TypesDiffer(n1, n2, c1, c2);
        return Done(Compared(if c1.path then 1 else -1, false));
      }
    }
    var found := AtLast(c2);
    if c2.text == [] {
      NextKeepsRest(n2, c2);
      c2 := Next(n2, c2);
      if found && c1.text == [] {
        return Done(Compared(0, true));
      }
      if c1.path != c2.path {
        TypesDiffer(n1, n2, c1, c2);
        return Done(Compared(if c1.path then 1 else -1, found));
      }
    }
    if c1.Char() != c2.Char() {
      CharsDiffer(n1, n2, c1, c2);
      return Done(Compared(c1.Char() - c2.Char(), found));
    }
    NoNul(n2, c2);
    if c1.text == [] {
      return Done(PastEnd);
    }
    CharsAgree(n1, n2, c1, c2);
    StepRest(n1, c1);
    StepRest(n2, c2);
    return Go(Step(c1), Step(c2));
  }

  /** Sign and prefix flag are those of the keys; the loop runs past the end exactly when the keys are equal
      and the second name is a "." directory reached through its dirname. */
  method CompareNames(n1: Name, n2: Name, useDir: bool) returns (r: Outcome)
    requires n1.Ok() && n2.Ok()
    ensures var k1, k2 := KeyFrom(n1, useDir), KeyFrom(n2, useDir);
      var hidden := n2.IsDot() && useDir && n2.dir.DirAt?;
      && (r.PastEnd? <==> k1 == k2 && hidden)
      && (r.Compared? ==> Sign(r.dif) == Compare(k1, k2))
      && (r.Compared? ==> (r.prefix <==> k2 <= k1 && (n2.IsDot() ==> !hidden && !StartAt(n1, useDir).path)))
  {
    hide Rest, Key, BaseKey, KeyFrom, Compare, Elems, Cursor.Valid, Name.Ok;
    var c1, c2 := StartAt(n1, useDir), StartAt(n2, useDir);
    ghost var k1, k2 := Rest(n1, c1), Rest(n2, c2);
    ghost var hidden := n2.IsDot() && useDir && n2.dir.DirAt?;
    StartRest(n1, useDir);
    StartRest(n2, useDir);
    if c1.path != c2.path {
      TypesDiffer(n1, n2, c1, c2);
      HeadType(n2, c2);
      return Compared(if c1.path then 1 else -1, false);
    }
    while true
      invariant c1.Valid(n1) && c2.Valid(n2) && c1.path == c2.path
      invariant Compare(Rest(n1, c1), Rest(n2, c2)) == Compare(k1, k2)
      invariant Rest(n2, c2) <= Rest(n1, c1) <==> k2 <= k1
      invariant n2.IsDot() ==> if hidden then Hidden(n2, c2) else c2 == AtBase(n2) && !StartAt(n1, useDir).path
      decreases |Rest(n1, c1)|
    {
      var p := OnePass(n1, n2, c1, c2);
      if p.Done? {
        return p.r;
      }
      c1, c2 := p.c1, p.c2;
    }
  }

  // ---------- dictionary order ----------

  lemma {:induction false} CompareFlips(a: seq<int>, b: seq<int>)
    ensures Compare(b, a) == -Compare(a, b)
  {
    if a != [] && b != [] && a[0] == b[0] {
      CompareFlips(a[1..], b[1..]);
    }
  }

  lemma {:induction false} CompareChains(a: seq<int>, b: seq<int>, c: seq<int>)
    requires Compare(a, b) <= 0 && Compare(b, c) <= 0
    ensures Compare(a, c) <= 0
    ensures Compare(a, b) < 0 || Compare(b, c) < 0 ==> Compare(a, c) < 0
  {
    if a != [] && b != [] && c != [] && a[0] == b[0] == c[0] {
      CompareChains(a[1..], b[1..], c[1..]);
    }
  }

  lemma {:induction false} SharedPrefix(p: seq<int>, a: seq<int>, b: seq<int>)
    ensures Compare(p + a, p + b) == Compare(a, b)
    ensures p + b <= p + a <==> b <= a
  {
    if p == [] {
      assert p + a == a && p + b == b;
    } else {
      SharedPrefix(p[1..], a, b);
      assert (p + a)[1..] == p[1..] + a && (p + b)[1..] == p[1..] + b;
      assert p + a == [p[0]] + (p[1..] + a) && p + b == [p[0]] + (p[1..] + b);
      if p + b <= p + a {
        assert (p + a)[..|p + b|][1..] == (p[1..] + a)[..|p[1..] + b|];
      }
    }
  }

  lemma {:induction false} PrefixFirst(p: seq<int>, a: seq<int>)
    requires p <= a
    ensures Compare(p, a) <= 0
  {
    if p != [] {
      assert p[1..] <= a[1..];
      PrefixFirst(p[1..], a[1..]);
    }
  }

  /** Whatever sorts between two keys with a common prefix has that prefix. */
  lemma {:induction false} Between(p: seq<int>, x: seq<int>, y: seq<int>, z: seq<int>)
    requires p <= x && p <= z && Compare(x, y) <= 0 && Compare(y, z) <= 0
    ensures p <= y
  {
    if p != [] {
      assert p[1..] <= x[1..] && p[1..] <= z[1..];
      Between(p[1..], x[1..], y[1..], z[1..]);
      assert p == [p[0]] + p[1..] && y == [y[0]] + y[1..];
    }
  }

  // ---------- the order of list entries ----------

  /** A null or cleared entry, or a name. */
  datatype Item = Gone | Here(name: Name)

  predicate ItemsOk(a: Item, b: Item) {
    (a.Here? ==> a.name.Ok()) && (b.Here? ==> b.name.Ok()) && (a.Here? && b.Here? ==> OneHeap(a.name, b.name))
  }

  /** f_name_cmp compares these two without running past the end of their strings. */
  predicate Comparable(a: Item, b: Item) {
    ItemsOk(a, b) && (a.Here? && b.Here? && b.name.IsDot() && b.name.dir.DirAt? && !SamePointer(a.name, b.name) ==>
      Key(a.name) != Key(b.name))
  }

  /** Cleared entries sort first. */
  function ItemKey(a: Item): seq<int> {
    if a.Gone? then [0] else [1] + Key(a.name)
  }

  /** f_name_cmp, flist.c:3269-3386: the order of the keys, with or without the same-pointer shortcut. */
  method NameCmp(a: Item, b: Item) returns (r: Outcome)
    requires ItemsOk(a, b)
    ensures r.PastEnd? <==> !Comparable(a, b)
    ensures r.Compared? ==> Sign(r.dif) == Compare(ItemKey(a), ItemKey(b))
    ensures r.Compared? && a.Here? && b.Here? && !b.name.IsDot() ==> (r.prefix <==> Key(b.name) <= Key(a.name))
  {
    hide BaseKey, Elems, Name.Ok, Name.IsDot;
    if a.Gone? || b.Gone? {
      return Compared(if b.Here? then -1 else if a.Here? then 1 else 0, false);
    }
    SharedPrefix([1], Key(a.name), Key(b.name));
    if SamePointer(a.name, b.name) {
      Shortcut(a.name, b.name);
    }
    r := CompareNames(a.name, b.name, !SamePointer(a.name, b.name));
  }

  /** Leaving out a shared dirname changes neither the order nor the prefix relation. */
  lemma Shortcut(m: Name, n: Name)
    requires SamePointer(m, n) && OneHeap(m, n)
    ensures Compare(Key(m), Key(n)) == Compare(BaseKey(m), BaseKey(n))
    ensures Key(n) <= Key(m) <==> BaseKey(n) <= BaseKey(m)
  {
    if m.dir.DirAt? {
      SharedPrefix(Elems(true, m.dir.path) + [END], BaseKey(m), BaseKey(n));
    }
  }

  /** f_name_cmp on two names of one directory that is reached by its dirname: equal keys, different strings. */
  lemma PastEndExample()
    ensures var d, dot := Name(NoDir, [100], true), Name(DirAt(1, [100]), [DOT], true);
      && d.Ok() && dot.Ok() && OneHeap(d, dot) && Key(d) == Key(dot) && dot.IsDot() && !SamePointer(d, dot)
      && !Comparable(Here(d), Here(dot))
  {
  }

  // ---------- what the keys say about paths ----------

  /** What must not be compared with a "." that has a dirname: the directory itself, or its "." with another
      string of the same dirname. */
  lemma ComparableIs(m: Name, n: Name)
    requires m.Ok() && n.Ok() && OneHeap(m, n)
    ensures Comparable(Here(m), Here(n)) <==>
      !(n.IsDot() && n.dir.DirAt? && m.isDir
        && if m.IsDot() then m.dir.DirAt? && m.dir.path == n.dir.path && m.dir.address != n.dir.address
           else m.Path() == n.dir.path)
  {
    hide Elems, Key, Name.Path;
    if n.IsDot() && n.dir.DirAt? {
      KeyParts(m);
      KeyParts(n);
      SameFolder(m, n);
    }
  }

  lemma SameFolder(m: Name, n: Name)
    requires m.Ok() && n.Ok() && OneHeap(m, n) && n.IsDot() && n.dir.DirAt?
    ensures Key(m) == Key(n) <==>
      m.isDir && if m.IsDot() then m.dir.DirAt? && m.dir.path == n.dir.path else m.Path() == n.dir.path
    ensures m.isDir && !m.IsDot() && Key(m) == Key(n) ==> !SamePointer(m, n)
  {
    hide Elems, Key, Name.Path;
    KeyParts(m);
    KeyParts(n);
    var p := n.dir.path + [SLASH];
    assert Key(n) == Elems(true, p) + [] == Elems(true, p);
    if m.IsDot() {
      assert Key(m) == Elems(true, Folder(m)) + [] == Elems(true, Folder(m));
      if Key(m) == Key(n) {
        Injective(true, Folder(m), p);
        assert n.dir.path == p[..|p| - 1];
      }
    } else if m.isDir {
      if Key(m) == Key(n) {
        Injective(true, m.Path() + [SLASH], p);
        assert n.dir.path == p[..|p| - 1] && m.Path() == (m.Path() + [SLASH])[..|p| - 1];
        assert |Folder(m) + m.base| == |n.dir.path|;
      }
    } else {
      LastElem(m);
      assert Elems(true, p)[|p| - 1] == END;
    }
  }

  /** The dirname with its slash. */
  function Folder(n: Name): seq<byte> {
    if n.dir.NoDir? then [] else n.dir.path + [SLASH]
  }

  lemma KeyParts(n: Name)
    ensures Key(n) == Elems(true, Folder(n)) + BaseKey(n) && n.Path() == Folder(n) + n.base
    ensures n.isDir && !n.IsDot() ==> Key(n) == Elems(true, n.Path() + [SLASH])
  {
    hide Elems;
    var f := Folder(n);
    assert Elems(true, [SLASH]) == [END];
    if n.dir.DirAt? {
      Append(true, n.dir.path, [SLASH]);
    }
    if n.isDir && !n.IsDot() {
      Append(true, f, n.base + [SLASH]);
      Append(true, n.base, [SLASH]);
      assert f + n.base + [SLASH] == f + (n.base + [SLASH]);
    }
  }

  lemma Append(path: bool, a: seq<byte>, b: seq<byte>)
    ensures Elems(path, a + b) == Elems(path, a) + Elems(path, b)
  {
  }

  lemma Injective(path: bool, a: seq<byte>, b: seq<byte>)
    requires Elems(path, a) == Elems(path, b)
    ensures a == b
  {
    forall i | 0 <= i < |a| ensures a[i] == b[i] {
      assert Elems(path, a)[i] == Elems(path, b)[i];
    }
  }

  /** A path splits into folder and basename in one way. */
  lemma SplitOnce(f: seq<byte>, b: seq<byte>, g: seq<byte>, c: seq<byte>)
    requires f + b == g + c && SLASH !in b && SLASH !in c
    requires f == [] || f[|f| - 1] == SLASH
    requires g == [] || g[|g| - 1] == SLASH
    ensures f == g && b == c
  {
    var s := f + b;
    assert forall i :: |f| <= i < |s| ==> s[i] == b[i - |f|];
    assert forall i :: |g| <= i < |s| ==> s[i] == c[i - |g|];
    assert f != [] ==> s[|f| - 1] == SLASH;
    assert g != [] ==> s[|g| - 1] == SLASH;
    assert |f| == |g|;
    assert f == s[..|f|] && g == s[..|g|] && b == s[|f|..] && c == s[|g|..];
  }

  /** Path elements and item elements split in one way too. */
  lemma TypesSplitOnce(f: seq<byte>, b: seq<byte>, g: seq<byte>, c: seq<byte>)
    requires Elems(true, f) + Elems(false, b) == Elems(true, g) + Elems(false, c)
    ensures f == g && b == c
  {
    hide Elems;
    var k, l := Elems(true, f) + Elems(false, b), Elems(true, g) + Elems(false, c);
    assert forall i :: 0 <= i < |k| ==> (k[i] >= 256 <==> i < |f|);
    assert forall i :: 0 <= i < |l| ==> (l[i] >= 256 <==> i < |g|);
    assert |f| < |k| ==> k[|f|] < 256 && l[|f|] < 256;
    assert |g| < |l| ==> k[|g|] < 256;
    assert |f| == |g|;
    assert k[..|f|] == Elems(true, f) && l[..|f|] == Elems(true, g);
    assert k[|f|..] == Elems(false, b) && l[|f|..] == Elems(false, c);
    Injective(true, f, g);
    Injective(false, b, c);
  }

  /** Only the same path and kind compare equal, however the path is cut into strings. */
  lemma EqualNames(m: Name, n: Name)
    requires m.Ok() && n.Ok() && !m.IsDot() && !n.IsDot()
    ensures Key(m) == Key(n) <==> m.isDir == n.isDir && m.Path() == n.Path()
  {
    hide Elems, Key, Name.Path;
    KeyParts(m);
    KeyParts(n);
    if m.isDir && n.isDir {
      if Key(m) == Key(n) {
        Injective(true, m.Path() + [SLASH], n.Path() + [SLASH]);
        assert m.Path() == (m.Path() + [SLASH])[..|m.Path()|] && n.Path() == (n.Path() + [SLASH])[..|n.Path()|];
      }
    } else if !m.isDir && !n.isDir {
      if Key(m) == Key(n) {
        TypesSplitOnce(Folder(m), m.base, Folder(n), n.base);
      }
      if m.Path() == n.Path() {
        SplitOnce(Folder(m), m.base, Folder(n), n.base);
      }
    } else {
      LastElem(m);
      LastElem(n);
    }
  }

  lemma LastElem(n: Name)
    requires n.Ok() && !n.IsDot()
    ensures Key(n) != [] && (Key(n)[|Key(n)| - 1] >= 256 <==> n.isDir)
  {
  }

  /** n is the directory itself or lies below it. */
  predicate Within(d: Name, n: Name) {
    || (n.isDir && !n.IsDot() && n.Path() == d.Path())
    || (n.dir.DirAt? && d.Path() + [SLASH] <= n.dir.path + [SLASH])
  }

  lemma PrefixElems(path: bool, a: seq<byte>, b: seq<byte>)
    ensures Elems(path, a) <= Elems(path, b) <==> a <= b
  {
    hide Elems;
    if Elems(path, a) <= Elems(path, b) {
      forall i | 0 <= i < |a| ensures a[i] == b[i] {
        assert Elems(path, a)[i] == Elems(path, b)[i];
      }
    }
  }

  /** What lies within a directory is what has the directory's key as a prefix. */
  lemma WithinIsPrefix(d: Name, n: Name)
    requires d.Ok() && n.Ok() && d.isDir && !d.IsDot()
    ensures Within(d, n) <==> Key(d) <= Key(n)
  {
    hide Elems, Key, Name.Path;
    KeyParts(d);
    KeyParts(n);
    var p, f := d.Path() + [SLASH], Folder(n);
    PrefixElems(true, p, f);
    if |p| <= |f| {
      assert Key(n)[..|p|] == Elems(true, f)[..|p|];
      assert n.isDir && n.Path() == d.Path() ==> |p| > |f|;
    } else {
      Longer(d, n);
    }
  }

  lemma Longer(d: Name, n: Name)
    requires d.Ok() && n.Ok() && d.isDir && !d.IsDot() && |d.Path() + [SLASH]| > |Folder(n)|
    ensures Within(d, n) <==> Key(d) <= Key(n)
  {
    hide Elems, Key, Name.Path;
    KeyParts(d);
    KeyParts(n);
    var p, f := d.Path() + [SLASH], Folder(n);
    if Key(d) <= Key(n) {
      var last := |p| - 1 - |f|;
      assert Key(n)[|p| - 1] == BaseKey(n)[last] == Key(d)[|p| - 1] == END;
      OnlyAtEnd(n, last);
      assert Key(d) == Key(n)[..|p|] == Key(n);
      EqualNames(d, n);
    } else if n.isDir && !n.IsDot() {
      EqualNames(d, n);
    }
  }

  /** The slash of a key lies after the basename. */
  lemma OnlyAtEnd(n: Name, i: nat)
    requires n.Ok() && i < |BaseKey(n)| && BaseKey(n)[i] == END
    ensures n.isDir && !n.IsDot() && i == |n.base|
  {
  }

  /** A directory sorts before everything it contains. */
  lemma DirFirst(d: Name, n: Name)
    requires d.Ok() && n.Ok() && d.isDir && !d.IsDot() && Within(d, n)
    ensures Compare(Key(d), Key(n)) <= 0
    ensures Compare(Key(d), Key(n)) == 0 <==> Key(d) == Key(n)
  {
    hide Key, Within;
    WithinIsPrefix(d, n);
    PrefixFirst(Key(d), Key(n));
  }

  /** The contents of a directory are contiguous in any sorted list. */
  lemma ContentsTogether(d: Name, x: Name, y: Name, z: Name)
    requires d.Ok() && x.Ok() && y.Ok() && z.Ok() && d.isDir && !d.IsDot()
    requires Within(d, x) && Within(d, z) && Compare(Key(x), Key(y)) <= 0 && Compare(Key(y), Key(z)) <= 0
    ensures Within(d, y)
  {
    hide Key, Within;
    WithinIsPrefix(d, x);
    WithinIsPrefix(d, y);
    WithinIsPrefix(d, z);
    Between(Key(d), Key(x), Key(y), Key(z));
  }

  /** strcmp, as -1, 0 or 1. */
  function StrCmp(a: seq<byte>, b: seq<byte>): int {
    if a == [] && b == [] then 0
    else if a == [] then -1
    else if b == [] then 1
    else if a[0] < b[0] then -1
    else if a[0] > b[0] then 1
    else StrCmp(a[1..], b[1..])
  }

  lemma {:induction false} ElemsCompare(path: bool, a: seq<byte>, b: seq<byte>)
    ensures Compare(Elems(path, a), Elems(path, b)) == StrCmp(a, b)
  {
    if a != [] && b != [] && a[0] == b[0] {
      ElemsCompare(path, a[1..], b[1..]);
      assert Elems(path, a)[1..] == Elems(path, a[1..]) && Elems(path, b)[1..] == Elems(path, b[1..]);
    }
  }

  /** In one directory, names of one kind are in the order of their bytes; a directory's name counts its slash. */
  lemma ByteOrder(m: Name, n: Name)
    requires Folder(m) == Folder(n) && m.isDir == n.isDir && !m.IsDot() && !n.IsDot()
    ensures Compare(Key(m), Key(n))
         == if m.isDir then StrCmp(m.base + [SLASH], n.base + [SLASH]) else StrCmp(m.base, n.base)
  {
    hide Key, Elems, Compare, StrCmp;
    KeyParts(m);
    KeyParts(n);
    SharedPrefix(Elems(true, Folder(m)), BaseKey(m), BaseKey(n));
    assert Elems(true, [SLASH]) == [END];
    Append(true, m.base, [SLASH]);
    Append(true, n.base, [SLASH]);
    ElemsCompare(false, m.base, n.base);
    ElemsCompare(true, m.base + [SLASH], n.base + [SLASH]);
  }

  /** In one directory "." comes first, then the other names that are not directories, then the directories. */
  lemma KindsApart(m: Name, n: Name)
    requires m.Ok() && n.Ok() && Folder(m) == Folder(n)
    requires (!m.isDir && n.isDir && !n.IsDot()) || (m.IsDot() && !n.IsDot())
    ensures Compare(Key(m), Key(n)) < 0
  {
    hide Key;
    KeyParts(m);
    KeyParts(n);
    SharedPrefix(Elems(true, Folder(m)), BaseKey(m), BaseKey(n));
  }
}
