/** hlink.c:61-85: idev_find, a hash table of inodes for every device behind a cached node of the device table. */
module Inodes {
  import opened Bytes
  import opened HashTable

  /** data_when_new of the device table, and the numbers that stand for the inode tables. */
  const NEW_DEVICE := 1
  const FIRST_TABLE := 2
  const NEW_INODE := -1

  // ---------- the maps that the tables stand for ----------

  datatype State = State(devs: map<int, int>, tables: seq<map<int, int>>)

  /** Each device has a table of its own. */
  ghost predicate Ok(s: State) {
    && (forall d :: d in s.devs ==> FIRST_TABLE <= s.devs[d] < FIRST_TABLE + |s.tables|)
    && (forall d, e :: d in s.devs && e in s.devs && s.devs[d] == s.devs[e] ==> d == e)
  }

  ghost predicate Known(s: State, dev: int, ino: int)
    requires Ok(s)
  {
    dev + 1 in s.devs && ino in s.tables[s.devs[dev + 1] - FIRST_TABLE]
  }

  ghost function DataOf(s: State, dev: int, ino: int): int
    requires Ok(s) && Known(s, dev, ino)
  {
    s.tables[s.devs[dev + 1] - FIRST_TABLE][ino]
  }

  ghost predicate SameNode(s: State, t: State, dev: int, ino: int)
    requires Ok(s) && Ok(t)
  {
    Known(t, dev, ino) == Known(s, dev, ino) && (Known(s, dev, ino) ==> DataOf(t, dev, ino) == DataOf(s, dev, ino))
  }

  /** With a table for the device. */
  ghost function Opened(s: State, dev: int): State {
    if dev + 1 in s.devs then s else State(s.devs[dev + 1 := FIRST_TABLE + |s.tables|], s.tables + [map[]])
  }

  /** With a node for the inode. */
  ghost function Entered(s: State, dev: int, ino: int): State
    requires Ok(s) && dev + 1 in s.devs
  {
    var t := s.devs[dev + 1] - FIRST_TABLE;
    s.(tables := s.tables[t := WithInode(s.tables[t], ino)])
  }

  ghost function WithInode(m: map<int, int>, ino: int): map<int, int> {
    if ino in m then m else m[ino := NEW_INODE]
  }

  lemma OpenedOk(s: State, dev: int)
    requires Ok(s)
    ensures Ok(Opened(s, dev)) && dev + 1 in Opened(s, dev).devs
    ensures dev + 1 in s.devs ==> s.devs[dev + 1] != NEW_DEVICE
    ensures forall d, i :: SameNode(s, Opened(s, dev), d, i)
  {
  }

  lemma EnteredOk(s: State, dev: int, ino: int)
    requires Ok(s) && dev + 1 in s.devs
    ensures var t := Entered(s, dev, ino);
      && Ok(t) && Known(t, dev, ino)
      && DataOf(t, dev, ino) == (if Known(s, dev, ino) then DataOf(s, dev, ino) else NEW_INODE)
      && forall d, i :: (d, i) != (dev, ino) ==> SameNode(s, t, d, i)
  {
  }

  /** What a search does to the nodes: it finds or makes one, and touches no other. */
  lemma FoundIs(s: State, dev: int, ino: int)
    requires Ok(s)
    ensures Ok(Opened(s, dev)) && dev + 1 in Opened(s, dev).devs
    ensures var t := Entered(Opened(s, dev), dev, ino);
      && Ok(t) && Known(t, dev, ino)
      && DataOf(t, dev, ino) == (if Known(s, dev, ino) then DataOf(s, dev, ino) else NEW_INODE)
      && forall d, i :: (d, i) != (dev, ino) ==> SameNode(s, t, d, i)
  {
    OpenedOk(s, dev);
    assert SameNode(s, Opened(s, dev), dev, ino);
    EnteredOk(Opened(s, dev), dev, ino);
    hide Opened, Entered, Known, DataOf;
    forall d, i | (d, i) != (dev, ino) ensures SameNode(s, Entered(Opened(s, dev), dev, ino), d, i) {
      assert SameNode(s, Opened(s, dev), d, i) && SameNode(Opened(s, dev), Entered(Opened(s, dev), dev, ino), d, i);
    }
  }

  // ---------- the tables themselves ----------

  /** The address of a node: an element of an array of slots. */
  datatype Address = Null | At(nodes: array<Slot>, ndx: int)

  class DevTable {
    const devs: Table
    const hash: int -> nat
    var tables: seq<Table>
    /** The static dev_node. */
    var devNode: Address
    ghost var s: State

    /** All tables are sound and apart from each other. */
    ghost predicate Sound()
      reads this`tables, devs, devs.nodes, tables, set t | t in tables :: t.nodes
    {
      && devs.Valid()
      && (forall k :: 0 <= k < |tables| ==> tables[k].Valid() && tables[k] != devs && tables[k].nodes != devs.nodes)
      && (forall j, k :: 0 <= j < k < |tables| ==> tables[j] != tables[k] && tables[j].nodes != tables[k].nodes)
    }

    /** And they stand for the maps. */
    ghost predicate Tables()
      reads this, devs, devs.nodes, tables, set t | t in tables :: t.nodes
    {
      && Sound() && Ok(s) && s.devs == devs.m && |tables| == |s.tables|
      && forall k :: 0 <= k < |tables| ==> tables[k].m == s.tables[k]
    }

    /** The cached address, if there is one, is that of a used slot of the device table as it is now. */
    ghost predicate Valid()
      reads this, devs, devs.nodes, tables, set t | t in tables :: t.nodes
    {
      Tables() && (devNode.At? ==>
        devNode.nodes == devs.nodes && 0 <= devNode.ndx < devs.nodes.Length && devs.nodes[devNode.ndx].key != 0)
    }

    constructor (hash: int -> nat)
      ensures Valid() && fresh(devs) && fresh(devs.nodes) && tables == [] && s == State(map[], [])
    {
      devs := new Table(16, hash);
      this.hash := hash;
      tables, devNode, s := [], Null, State(map[], []);
    }

    /** hlink.c:74: the node of the device, in the array that this very search may have made. */
    method FindDevice(dev: int)
      requires Sound() && dev + 1 != 0
      modifies this`devNode, devs, devs.nodes
      ensures Sound() && (devs.nodes == old(devs.nodes) || fresh(devs.nodes))
      ensures devs.m == if dev + 1 in old(devs.m) then old(devs.m) else old(devs.m)[dev + 1 := NEW_DEVICE]
      ensures devNode.At? && devNode.nodes == devs.nodes && 0 <= devNode.ndx < devs.nodes.Length
      ensures devs.nodes[devNode.ndx] == Slot(dev + 1, devs.m[dev + 1])
      ensures forall k :: 0 <= k < |tables| ==> tables[k].m == old(tables[k].m)
    {
      hide Table.Valid, Table.Crowded;
      var r := devs.Find(dev + 1, NEW_DEVICE);
      devNode := At(devs.nodes, r);
    }

    /** hlink.c:75-80: a table for a new device. */
    method AddTable()
      requires Sound() && devNode.At? && devNode.nodes == devs.nodes && 0 <= devNode.ndx < devs.nodes.Length
      requires devs.nodes[devNode.ndx].key != 0
      modifies this`tables, devs, devs.nodes
      ensures Sound() && devs.nodes == old(devs.nodes)
      ensures devs.nodes[devNode.ndx] == Slot(old(devs.nodes[devNode.ndx].key), FIRST_TABLE + |old(tables)|)
      ensures devs.m == old(devs.m)[old(devs.nodes[devNode.ndx].key) := FIRST_TABLE + |old(tables)|]
      ensures |tables| == |old(tables)| + 1 && tables[..|old(tables)|] == old(tables)
      ensures fresh(tables[|old(tables)|]) && fresh(tables[|old(tables)|].nodes) && tables[|old(tables)|].m == map[]
      ensures forall k :: 0 <= k < |old(tables)| ==> tables[k].m == old(tables[k].m)
    {
      hide Table.Valid, Table.Crowded;
      var t := new Table(512, hash);
      devs.SetData(devNode.ndx, FIRST_TABLE + |tables|);
      tables := tables + [t];
    }

    /** hlink.c:72-82: dev_node becomes the node of this device, and its data the number of a table. */
    method OpenDevice(dev: int)
      requires Tables() && dev + 1 != 0
      modifies this, devs, devs.nodes
      ensures Valid() && s == Opened(old(s), dev)
      ensures devNode.At? && devNode.nodes[devNode.ndx].key == dev + 1
      ensures devs.nodes == old(devs.nodes) || fresh(devs.nodes)
      ensures old(tables) <= tables
      ensures forall k :: |old(tables)| <= k < |tables| ==> fresh(tables[k]) && fresh(tables[k].nodes)
    {
      hide Sound, Known, DataOf, SameNode, Ok;
      OpenedOk(s, dev);
      FindDevice(dev);
      if devNode.nodes[devNode.ndx].data == NEW_DEVICE {
        AddTable();
      }
      s := Opened(s, dev);
    }

    /** The address of the node of a pair. */
    ghost predicate NodeOf(dev: int, ino: int, a: Address)
      requires Tables()
      reads this, devs, devs.nodes, tables, set t | t in tables :: t.nodes
    {
      && dev + 1 in s.devs && a.At?
      && a.nodes == tables[s.devs[dev + 1] - FIRST_TABLE].nodes && 0 <= a.ndx < a.nodes.Length
      && a.nodes[a.ndx].key == ino
    }

    /** hashtable_find in one of the inode tables: the others, and the device table, stay as they are. */
    method FindIn(k: int, ino: int) returns (a: Address)
      requires Sound() && 0 <= k < |tables| && ino != 0
      modifies tables[k], tables[k].nodes
      ensures Sound() && (tables[k].nodes == old(tables[k].nodes) || fresh(tables[k].nodes))
      ensures devs.m == old(devs.m) && devs.nodes == old(devs.nodes) && devs.nodes[..] == old(devs.nodes[..])
      ensures forall j :: 0 <= j < |tables| && j != k ==> tables[j].m == old(tables[j].m)
      ensures tables[k].m == if ino in old(tables[k].m) then old(tables[k].m) else old(tables[k].m)[ino := NEW_INODE]
      ensures a.At? && a.nodes == tables[k].nodes && 0 <= a.ndx < a.nodes.Length
      ensures ino in tables[k].m && a.nodes[a.ndx] == Slot(ino, tables[k].m[ino])
    {
      hide Table.Valid, Table.Crowded;
      var t := tables[k];
      var r := t.Find(ino, NEW_INODE);
      a := At(t.nodes, r);
    }

    /** The data of the cached node is the number of its device's table. */
    lemma CachedData(dev: int)
      requires Valid() && devNode.At? && devNode.nodes[devNode.ndx].key == dev + 1
      ensures dev + 1 in s.devs && devNode.nodes[devNode.ndx].data == s.devs[dev + 1]
      ensures Ok(s) && 0 <= s.devs[dev + 1] - FIRST_TABLE < |tables|
    {
      Stored(devs.nodes[..], devs.hash, devs.m, devNode.ndx);
    }

    /** hlink.c:84: the inode's node in the device's table, with the map it stands for. */
    method EnterTable(dev: int, k: int, ino: int) returns (a: Address)
      requires Tables() && 0 <= k < |tables| && ino != 0 && dev + 1 in s.devs && s.devs[dev + 1] == FIRST_TABLE + k
      modifies this`s, tables[k], tables[k].nodes
      ensures Tables() && s == Entered(old(s), dev, ino)
      ensures devs.nodes == old(devs.nodes) && devs.nodes[..] == old(devs.nodes[..])
      ensures NodeOf(dev, ino, a) && Known(s, dev, ino) && a.nodes[a.ndx].data == DataOf(s, dev, ino)
    {
      hide Sound, NodeOf, Known, DataOf;
      a := FindIn(k, ino);
      s := Entered(s, dev, ino);
      Reached(dev, ino, k, a);
    }

    lemma Reached(dev: int, ino: int, k: int, a: Address)
      requires Tables() && dev + 1 in s.devs && s.devs[dev + 1] - FIRST_TABLE == k && 0 <= k < |tables|
      requires a.At? && a.nodes == tables[k].nodes && 0 <= a.ndx < a.nodes.Length
      requires ino in tables[k].m && a.nodes[a.ndx] == Slot(ino, tables[k].m[ino])
      ensures NodeOf(dev, ino, a) && Known(s, dev, ino) && a.nodes[a.ndx].data == DataOf(s, dev, ino)
    {
      hide Sound;
    }

    /** idev_find: the address of the pair's node; a new node holds NEW_INODE. The key 0 ends the program. */
    method Find(dev: int, ino: int) returns (a: Address)
      requires Valid()
      modifies this, devs, devs.nodes, tables, set t | t in tables :: t.nodes
      ensures Valid()
      ensures dev + 1 == 0 || ino == 0 ==> a == Null
      ensures dev + 1 != 0 && ino != 0 ==>
        && Ok(Opened(old(s), dev)) && dev + 1 in Opened(old(s), dev).devs && s == Entered(Opened(old(s), dev), dev, ino)
        && NodeOf(dev, ino, a) && Known(s, dev, ino) && a.nodes[a.ndx].data == DataOf(s, dev, ino)
      ensures old(devNode.At? && devNode.nodes[devNode.ndx].key == dev + 1) ==>
        devNode == old(devNode) && devs.nodes == old(devs.nodes) && devs.nodes[..] == old(devs.nodes[..])
    {
      hide Tables, Ok, Known, DataOf, NodeOf;
      if devNode == Null || devNode.nodes[devNode.ndx].key != dev + 1 {
        if dev + 1 == 0 {
          return Null;
        }
        OpenDevice(dev);
      }
      CachedData(dev);
      if ino == 0 {
        return Null;
      }
      var k := devNode.nodes[devNode.ndx].data - FIRST_TABLE;
      assert tables[k] in tables;
      ghost var slots := devs.nodes[..];
      a := EnterTable(dev, k, ino);
      assert devs.nodes[devNode.ndx] == slots[devNode.ndx];
    }

    /** Two pairs share an address exactly when they are equal. */
    lemma NodesDiffer(d: int, i: int, a: Address, e: int, j: int, b: Address)
      requires Tables() && i != 0 && j != 0 && NodeOf(d, i, a) && NodeOf(e, j, b)
      ensures a == b <==> (d, i) == (e, j)
    {
      hide Table.Valid;
      if d == e && i == j {
        OneSlot(tables[s.devs[d + 1] - FIRST_TABLE], a.ndx, b.ndx);
      }
    }
  }

  lemma OneSlot(t: Table, a: int, b: int)
    requires t.Valid() && 0 <= a < t.nodes.Length && 0 <= b < t.nodes.Length
    requires t.nodes[a].key == t.nodes[b].key != 0
    ensures a == b
  {
    hide Count, IsPowerOf2;
    assert t.nodes[..][a].key == t.nodes[..][b].key;
  }
}
