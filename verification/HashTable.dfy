/** hashtable.c:22-56, 80-185: the open-addressing hash table, as a finite map. */
module HashTable {
  import opened Bytes

  /** A slot: key 0 is free. */
  datatype Slot = Slot(key: int, data: int)

  const FREE := Slot(0, 0)

  function LoadLimit(size: nat): nat {
    size * 3 / 4
  }

  /** How many steps of the probe lead from h to i. */
  function Dist(h: int, i: int, n: int): int {
    if i >= h then i - h else i - h + n
  }

  function Home(hash: int -> nat, key: int, n: int): int
    requires n > 0
  {
    hash(key) % n
  }

  function Count(s: seq<Slot>): (c: nat)
    ensures c <= |s|
  {
    if s == [] then 0 else Count(s[..|s| - 1]) + if s[|s| - 1].key != 0 then 1 else 0
  }

  /** A key is found before any free slot. */
  ghost predicate Reachable(s: seq<Slot>, hash: int -> nat, i: int)
    requires 0 <= i < |s|
  {
    var h := Home(hash, s[i].key, |s|);
    forall j :: 0 <= j < |s| && Dist(h, j, |s|) < Dist(h, i, |s|) ==> s[j].key != 0
  }

  ghost predicate Has(s: seq<Slot>, k: int) {
    exists i :: 0 <= i < |s| && s[i].key == k
  }

  /** The table holds the map, each key once, and all keys can be reached. */
  ghost predicate Holds(s: seq<Slot>, hash: int -> nat, m: map<int, int>) {
    && (forall i :: 0 <= i < |s| && s[i].key != 0 ==> s[i].key in m && m[s[i].key] == s[i].data && Reachable(s, hash, i))
    && (forall i, j :: 0 <= i < j < |s| && s[i].key != 0 ==> s[i].key != s[j].key)
    && (forall k :: k in m ==> k != 0 && Has(s, k))
  }

  lemma {:induction false} CountSet(s: seq<Slot>, i: int, x: Slot)
    requires 0 <= i < |s| && s[i].key == 0 && x.key != 0
    ensures Count(s[i := x]) == Count(s) + 1
  {
    var t := s[i := x];
    var n := |s| - 1;
    if i == n {
      assert t[..n] == s[..n];
    } else {
      assert t[..n] == s[..n][i := x];
      CountSet(s[..n], i, x);
    }
  }

  lemma {:induction false} CountSame(s: seq<Slot>, i: int, x: Slot)
    requires 0 <= i < |s| && s[i].key != 0 && x.key != 0
    ensures Count(s[i := x]) == Count(s)
  {
    var t := s[i := x];
    var n := |s| - 1;
    if i == n {
      assert t[..n] == s[..n];
    } else {
      assert t[..n] == s[..n][i := x];
      CountSame(s[..n], i, x);
    }
  }

  /** A table that is not full has a free slot. */
  lemma {:induction false} SomeFree(s: seq<Slot>) returns (e: int)
    requires Count(s) < |s|
    ensures 0 <= e < |s| && s[e].key == 0
  {
    var n := |s| - 1;
    if s[n].key == 0 {
      e := n;
    } else {
      e := SomeFree(s[..n]);
    }
  }

  lemma {:induction false} AllFree(s: seq<Slot>)
    requires forall i :: 0 <= i < |s| ==> s[i] == FREE
    ensures Count(s) == 0
  {
    if s != [] {
      AllFree(s[..|s| - 1]);
    }
  }

  /** What the probe has passed: slots in use, by other keys. */
  ghost predicate Passed(s: seq<Slot>, h: int, key: int, ndx: int) {
    forall j :: 0 <= j < |s| && Dist(h, j, |s|) < Dist(h, ndx, |s|) ==> s[j].key != 0 && s[j].key != key
  }

  /** The probe meets a free slot: the key is not in the table. */
  lemma NotThere(s: seq<Slot>, hash: int -> nat, m: map<int, int>, key: int, ndx: int)
    requires Holds(s, hash, m) && key != 0 && 0 <= ndx < |s| && s[ndx].key == 0
    requires Passed(s, Home(hash, key, |s|), key, ndx)
    ensures key !in m
  {
    hide Passed, Reachable, Home, Dist;
    forall i | 0 <= i < |s| && s[i].key != 0 ensures s[i].key != key {
      Elsewhere(s, hash, key, ndx, i);
    }
  }

  lemma Elsewhere(s: seq<Slot>, hash: int -> nat, key: int, ndx: int, i: int)
    requires 0 <= i < |s| && 0 <= ndx < |s| && s[ndx].key == 0 && s[i].key != 0 && Reachable(s, hash, i)
    requires Passed(s, Home(hash, key, |s|), key, ndx)
    ensures s[i].key != key
  {
  }

  lemma Inserted(s: seq<Slot>, hash: int -> nat, m: map<int, int>, key: int, data: int, ndx: int)
    requires Holds(s, hash, m) && key != 0 && key !in m && 0 <= ndx < |s| && s[ndx].key == 0
    requires Passed(s, Home(hash, key, |s|), key, ndx)
    ensures Holds(s[ndx := Slot(key, data)], hash, m[key := data])
  {
    hide Home;
    var t := s[ndx := Slot(key, data)];
    forall i | 0 <= i < |t| && t[i].key != 0 ensures Reachable(t, hash, i) {
      if i != ndx {
        assert Reachable(s, hash, i);
      }
    }
    forall k | k in m[key := data] ensures Has(t, k) {
      if k == key {
        assert t[ndx].key == k;
      } else {
        var i :| 0 <= i < |s| && s[i].key == k;
        assert t[i].key == k;
      }
    }
  }

  lemma Overwritten(s: seq<Slot>, hash: int -> nat, m: map<int, int>, ndx: int, data: int)
    requires Holds(s, hash, m) && 0 <= ndx < |s| && s[ndx].key != 0
    ensures Holds(s[ndx := s[ndx].(data := data)], hash, m[s[ndx].key := data])
  {
    hide Home;
    var t := s[ndx := s[ndx].(data := data)];
    forall i | 0 <= i < |t| && t[i].key != 0 ensures Reachable(t, hash, i) {
      assert Reachable(s, hash, i);
    }
    forall k | k in m[s[ndx].key := data] ensures Has(t, k) {
      var i :| 0 <= i < |s| && s[i].key == k;
      assert t[i].key == k;
    }
  }

  /** hashtable.c:31-36: the smallest power of 2, from 16 on, that is not below the request. */
  method PowerFor(request: nat) returns (size: nat)
    ensures size >= request && size >= 16 && IsPowerOf2(size) && (size == 16 || size < 2 * request)
  {
    size := 16;
    if request >= 16 && IsPowerOf2(request) {
      return request;
    }
    assert IsPowerOf2(16);
    hide IsPowerOf2;
    while size < request
      invariant size >= 16 && IsPowerOf2(size) && (size == 16 || size < 2 * request)
      decreases request - size
    {
      Doubled(size);
      size := size * 2;
    }
  }

  class Table {
    const hash: int -> nat
    var nodes: array<Slot>
    var entries: nat
    /** The finite map that the table stands for. */
    ghost var m: map<int, int>

    ghost predicate Valid()
      reads this, nodes
    {
      && nodes.Length >= 16 && IsPowerOf2(nodes.Length) && entries == Count(nodes[..]) && entries <= LoadLimit(nodes.Length) + 1
      && Holds(nodes[..], hash, m)
    }

    /** hashtable_create: a power of 2 that can hold the requested size. */
    constructor (request: nat, hash: int -> nat)
      ensures Valid() && m == map[] && fresh(nodes) && this.hash == hash
      ensures nodes.Length >= request && (nodes.Length == 16 || nodes.Length < 2 * request)
    {
      var size := PowerFor(request);
      this.hash := hash;
      nodes := new Slot[size](_ => FREE);
      entries := 0;
      m := map[];
      new;
      AllFree(nodes[..]);
    }

    /** hashtable.c:152-170: the slot of the key, or the free slot where it belongs. */
    method Probe(key: int) returns (ndx: int)
      requires Valid() && key != 0
      ensures 0 <= ndx < nodes.Length && (nodes[ndx].key == key || nodes[ndx].key == 0)
      ensures nodes[ndx].key == 0 ==> Passed(nodes[..], Home(hash, key, nodes.Length), key, ndx)
    {
      hide Holds;
      ghost var s := nodes[..];
      ghost var h := Home(hash, key, nodes.Length);
      ghost var e := SomeFree(s);
      ndx := hash(key) % nodes.Length;
      while nodes[ndx].key != key && nodes[ndx].key != 0
        invariant 0 <= ndx < nodes.Length && Passed(s, h, key, ndx)
        decreases Dist(h, e, nodes.Length) - Dist(h, ndx, nodes.Length)
      {
        ndx := if ndx + 1 == nodes.Length then 0 else ndx + 1;
      }
    }

    /** Whether the next new key makes the table grow. */
    ghost predicate Crowded()
      reads this, nodes
    {
      entries > LoadLimit(nodes.Length)
    }

    /** hashtable_find: looks a key up, or adds it with the given data (0: do not add). The slot's index, -1 if the key is
        not there, -2 for the key 0. Re-adding while growing cannot make the table grow again. */
    method Find(key: int, data: int) returns (r: int)
      requires Valid()
      modifies this, nodes
      ensures Valid() && (nodes == old(nodes) || fresh(nodes)) && nodes.Length >= old(nodes.Length)
      ensures key == 0 ==> r == -2 && m == old(m)
      ensures key != 0 && data == 0 ==> m == old(m) && (r == -1 <==> key !in m) && nodes == old(nodes)
      ensures key != 0 && data != 0 ==> r >= 0 && m == if key in old(m) then old(m) else old(m)[key := data]
      ensures r >= 0 ==> r < nodes.Length && key in m && nodes[r] == Slot(key, m[key])
      ensures r >= -1 ==> key != 0
      ensures !old(Crowded()) ==> nodes == old(nodes) && entries <= old(entries) + 1
      ensures old(Crowded()) && key != 0 && data != 0 ==> nodes.Length == 2 * old(nodes.Length)
      decreases if Crowded() then 1 else 0, 1
    {
      hide Holds, Count, IsPowerOf2;
      if key == 0 {
        return -2;
      }
      if data != 0 && entries > LoadLimit(nodes.Length) {
        Grow();
      }
      r := Probe(key);
      ghost var s := nodes[..];
      if nodes[r].key == key {
        Stored(s, hash, m, r);
        return;
      }
      NotThere(s, hash, m, key, r);
      if data == 0 {
        return -1;
      }
      Inserted(s, hash, m, key, data, r);
      CountSet(s, r, Slot(key, data));
      nodes[r] := Slot(key, data);
      assert nodes[..] == s[r := Slot(key, data)];
      entries := entries + 1;
      m := m[key := data];
    }

    /** hashtable.c:92-117: twice the size, and every key again, zero data included. */
    method Grow()
      requires Valid() && Crowded()
      modifies this, nodes
      ensures Valid() && !Crowded() && m == old(m) && fresh(nodes) && nodes.Length == 2 * old(nodes.Length)
      decreases 1, 0
    {
      hide Holds, Count, IsPowerOf2;
      ghost var s, all := nodes[..], m;
      var was := nodes;
      var i := was.Length;
      Doubled(i);
      nodes := new Slot[2 * i](_ => FREE);
      entries := 0;
      m := map[];
      Nothing(nodes[..], hash);
      AllFree(nodes[..]);
      while i > 0
        invariant 0 <= i <= was.Length && was[..] == s && fresh(nodes) && nodes.Length == 2 * was.Length && was != nodes
        invariant Valid() && entries <= was.Length - i && Partial(s, all, m, i)
        invariant unchanged(was)
      {
        i := i - 1;
        var slot := was[i];
        if slot.key != 0 {
          ghost var before := m;
          var r := Find(slot.key, if slot.data != 0 then slot.data else 1);
          if slot.data == 0 {
            SetData(r, 0);
          }
          Readded(s, hash, all, before, m, i);
        }
      }
      Complete(s, hash, all, m);
    }

    /** The caller's node->data = data. */
    method SetData(r: int, data: int)
      requires Valid() && 0 <= r < nodes.Length && nodes[r].key != 0
      modifies this`m, nodes
      ensures Valid() && m == old(m)[nodes[r].key := data] && nodes[r] == old(nodes[r]).(data := data)
    {
      hide Holds, Count, IsPowerOf2;
      ghost var s := nodes[..];
      Overwritten(s, hash, m, r, data);
      CountSame(s, r, s[r].(data := data));
      nodes[r] := nodes[r].(data := data);
      assert nodes[..] == s[r := s[r].(data := data)];
      m := m[nodes[r].key := data];
    }
  }

  lemma Stored(s: seq<Slot>, hash: int -> nat, m: map<int, int>, r: int)
    requires Holds(s, hash, m) && 0 <= r < |s| && s[r].key != 0
    ensures s[r].key in m && m[s[r].key] == s[r].data
  {
  }

  lemma Doubled(n: nat)
    requires n >= 16 && IsPowerOf2(n)
    ensures IsPowerOf2(2 * n)
  {
  }

  lemma Nothing(s: seq<Slot>, hash: int -> nat)
    requires forall i :: 0 <= i < |s| ==> s[i] == FREE
    ensures Holds(s, hash, map[])
  {
  }

  /** m is the map of the slots from i on. */
  ghost predicate Partial(s: seq<Slot>, all: map<int, int>, m: map<int, int>, i: int) {
    && (forall k :: k in m ==> k in all && m[k] == all[k])
    && (forall j :: i <= j < |s| && 0 <= j && s[j].key != 0 ==> s[j].key in m)
  }

  lemma Readded(s: seq<Slot>, hash: int -> nat, all: map<int, int>, m: map<int, int>, now: map<int, int>, i: int)
    requires Holds(s, hash, all) && 0 <= i < |s| && s[i].key != 0 && Partial(s, all, m, i + 1)
    requires now == m || now == m[s[i].key := s[i].data] || (s[i].key in m && now == m[s[i].key := m[s[i].key]])
    requires s[i].key in now
    ensures Partial(s, all, now, i)
  {
  }

  lemma Complete(s: seq<Slot>, hash: int -> nat, all: map<int, int>, m: map<int, int>)
    requires Holds(s, hash, all) && Partial(s, all, m, 0)
    ensures m == all
  {
    forall k | k in all ensures k in m {
      assert Has(s, k);
      var i :| 0 <= i < |s| && s[i].key == k;
      assert s[i].key in m;
    }
    assert forall k :: k in all ==> k in m;
    assert forall k :: k in m ==> k in all && m[k] == all[k];
    assert m.Keys == all.Keys;
  }
}
