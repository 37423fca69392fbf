/** flist.c:1816-1853, 2141-2242: incremental recursion, the directory tree and the order of the extra lists. */
module DirTree {
  /** What there is to scan: a directory with the duplicates of its name that follow it, the number of files in their
      common list, and the directories of that list in sorted order. */
  datatype Tree = Tree(dups: nat, files: nat, kids: Kids)
  datatype Kids = NoKids | Dot(rest: Kids) | Sub(tree: Tree, rest: Kids)

  /** Every directory below, parents first. */
  function Preorder(ks: Kids): seq<Tree> {
    match ks
    case NoKids => []
    case Dot(rest) => Preorder(rest)
    case Sub(t, rest) => [t] + Preorder(t.kids) + Preorder(rest)
  }

  // ---------- the linked directories ----------

  /** F_DIR_NODE: indices into dir_flist, or -1; and what a scan of the directory with its duplicates will find. */
  datatype Node = Node(parent: int, first: int, next: int, dup: bool, tree: Tree)

  datatype DirFile = DirFile(dot: bool, dup: bool, tree: Tree)

  const NOTHING := Tree(0, 0, NoKids)
  const DOT_FILE := DirFile(true, false, NOTHING)

  /** The directories of one list, as add_dirs_to_tree meets them. */
  function Flatten(ks: Kids): seq<DirFile> {
    match ks
    case NoKids => []
    case Dot(rest) => [DOT_FILE] + Flatten(rest)
    case Sub(t, rest) => Twins(t) + Flatten(rest)
  }

  function Twins(t: Tree): (fs: seq<DirFile>)
    ensures |fs| == t.dups + 1 && forall k :: 0 <= k < |fs| ==> fs[k] == DirFile(false, k > 0, if k == 0 then t else NOTHING)
  {
    [DirFile(false, false, t)] + seq(t.dups, _ => DirFile(false, true, NOTHING))
  }

  /** The first directory from i on that is linked. */
  function NextAt(fs: seq<DirFile>, i: nat): (n: int)
    ensures n == -1 || i <= n < |fs|
    decreases |fs| - i
  {
    if i >= |fs| then -1 else if !fs[i].dot then i else NextAt(fs, i + 1)
  }

  function Index(base: int, n: int): int {
    if n < 0 then -1 else base + n
  }

  const UNLINKED := Node(-1, -1, -1, false, NOTHING)

  function NodeOf(fs: seq<DirFile>, parent: int, base: int, i: nat): Node
    requires i < |fs|
  {
    if fs[i].dot then UNLINKED else Node(parent, -1, Index(base, NextAt(fs, i + 1)), fs[i].dup, fs[i].tree)
  }

  function WithFirst(nodes: seq<Node>, parent: int, child: int): seq<Node>
    requires parent < |nodes|
  {
    if parent >= 0 && child >= 0 then nodes[parent := nodes[parent].(first := child)] else nodes
  }

  /** The tree after add_dirs_to_tree. */
  function Attach(nodes: seq<Node>, parent: int, fs: seq<DirFile>): seq<Node>
    requires parent < |nodes|
  {
    WithFirst(nodes, parent, Index(|nodes|, NextAt(fs, 0))) + NodesOf(fs, parent, |nodes|)
  }

  function NodesOf(fs: seq<DirFile>, parent: int, base: int): (ns: seq<Node>)
    ensures |ns| == |fs| && forall i :: 0 <= i < |fs| ==> ns[i] == NodeOf(fs, parent, base, i)
  {
    seq(|fs|, i requires 0 <= i < |fs| => NodeOf(fs, parent, base, i))
  }

  /** The nodes of the first i directories, while the last linked one, dp, waits for its next sibling. */
  ghost predicate Partly(nodes: seq<Node>, parent: int, base: int, fs: seq<DirFile>, i: nat, dp: int) {
    && i <= |fs| && |nodes| == base + i && 0 <= base && parent < base
    && -1 <= dp < i && (dp >= 0 ==> !fs[dp].dot) && (forall k :: dp < k < i ==> fs[k].dot)
    && forall k :: 0 <= k < i ==> nodes[base + k] == (if k == dp then NodeOf(fs, parent, base, k).(next := nodes[base + k].next)
                                                      else NodeOf(fs, parent, base, k))
  }

  lemma {:induction false} NextSkips(fs: seq<DirFile>, i: nat, j: nat)
    requires i <= j <= |fs| && forall k :: i <= k < j ==> fs[k].dot
    ensures NextAt(fs, i) == NextAt(fs, j)
    decreases j - i
  {
    if i < j {
      NextSkips(fs, i + 1, j);
    }
  }

  lemma DotStep(nodes: seq<Node>, parent: int, base: int, fs: seq<DirFile>, i: nat, dp: int)
    requires Partly(nodes, parent, base, fs, i, dp) && i < |fs| && fs[i].dot
    ensures Partly(nodes + [UNLINKED], parent, base, fs, i + 1, dp)
  {
  }

  /** A linked directory completes the one before it. */
  lemma LinkStep(nodes: seq<Node>, parent: int, base: int, fs: seq<DirFile>, i: nat, dp: int, out: seq<Node>)
    requires Partly(nodes, parent, base, fs, i, dp) && i < |fs| && !fs[i].dot && |out| == base + i + 1
    requires out[base + i] == Node(parent, -1, -1, fs[i].dup, fs[i].tree)
    requires forall k :: base <= k < base + i ==>
      out[k] == if k == base + dp && dp >= 0 then nodes[k].(next := base + i) else nodes[k]
    ensures Partly(out, parent, base, fs, i + 1, i)
  {
    if dp >= 0 {
      NextSkips(fs, dp + 1, i);
    }
    forall k | 0 <= k < i ensures out[base + k] == NodeOf(fs, parent, base, k) {
      assert nodes[base + k].next == nodes[base + k].next;
    }
  }

  lemma LastStep(nodes: seq<Node>, parent: int, base: int, fs: seq<DirFile>, dp: int)
    requires Partly(nodes, parent, base, fs, |fs|, dp)
    ensures (if dp >= 0 then nodes[base + dp := nodes[base + dp].(next := -1)] else nodes)
         == nodes[..base] + NodesOf(fs, parent, base)
  {
    if dp >= 0 {
      NextSkips(fs, dp + 1, |fs|);
    }
    forall k | base <= k < |nodes| && k != base + dp ensures nodes[k] == NodeOf(fs, parent, base, k - base) {
      assert nodes[base + (k - base)] == nodes[k];
    }
  }

  /** add_dirs_to_tree: every directory is appended, and all but the "." ones are linked. */
  method AddDirs(nodes: seq<Node>, parent: int, fs: seq<DirFile>, cur: int) returns (out: seq<Node>, sendDir: int)
    requires parent < |nodes|
    ensures out == Attach(nodes, parent, fs)
    ensures sendDir == if parent < 0 && NextAt(fs, 0) >= 0 then |nodes| + NextAt(fs, 0) else cur
  {
    hide NodeOf, NextAt, Partly, Link, Headed, Attach;
    var base, dp := |nodes|, -1;
    out, sendDir := nodes, cur;
    PartlyStart(nodes, parent, fs);
    for i := 0 to |fs|
      invariant Partly(out, parent, base, fs, i, dp) && Headed(nodes, out, parent, fs, dp)
      invariant sendDir == if dp >= 0 && parent < 0 then base + NextAt(fs, 0) else cur
    {
      PartlyFacts(out, parent, base, fs, i, dp);
      ghost var was := out;
      if fs[i].dot {
        DotStep(out, parent, base, fs, i, dp);
        out := out + [UNLINKED];
        StillHeaded(nodes, was, parent, fs, dp, out);
      } else {
        HeadStep(nodes, out, parent, fs, i, dp);
        if dp < 0 {
          sendDir := if parent < 0 then base + i else sendDir;
        }
        out := Link(out, parent, base, dp, fs[i]);
        LinkIs(was, parent, base, dp, fs[i]);
        LinkStep(was, parent, base, fs, i, dp, out);
        dp := i;
      }
    }
    Attached(nodes, out, parent, fs, dp);
    if dp >= 0 {
      out := out[base + dp := out[base + dp].(next := -1)];
    }
  }

  /** The nodes that were there before: the parent is led to the first linked child, if there is one yet. */
  ghost predicate Headed(nodes: seq<Node>, out: seq<Node>, parent: int, fs: seq<DirFile>, dp: int) {
    && |nodes| <= |out| && parent < |nodes|
    && if dp < 0 then out[..|nodes|] == nodes
       else NextAt(fs, 0) >= 0 && out[..|nodes|] == WithFirst(nodes, parent, |nodes| + NextAt(fs, 0))
  }

  lemma StillHeaded(nodes: seq<Node>, was: seq<Node>, parent: int, fs: seq<DirFile>, dp: int, out: seq<Node>)
    requires Headed(nodes, was, parent, fs, dp) && was <= out
    ensures Headed(nodes, out, parent, fs, dp)
  {
    hide NextAt, WithFirst;
    assert out[..|nodes|] == was[..|nodes|];
  }

  /** Linking a directory: the first one is the parent's first child. */
  lemma HeadStep(nodes: seq<Node>, was: seq<Node>, parent: int, fs: seq<DirFile>, i: nat, dp: int)
    requires Partly(was, parent, |nodes|, fs, i, dp) && Headed(nodes, was, parent, fs, dp) && i < |fs| && !fs[i].dot
    ensures dp < 0 ==> NextAt(fs, 0) == i
    ensures Headed(nodes, Link(was, parent, |nodes|, dp, fs[i]), parent, fs, i)
  {
    hide NextAt, NodeOf, Link, Partly, WithFirst;
    PartlyFacts(was, parent, |nodes|, fs, i, dp);
    LinkIs(was, parent, |nodes|, dp, fs[i]);
    if dp < 0 {
      NextSkips(fs, 0, i);
      HereAt(fs, i);
      FirstChild(nodes, was, parent, fs[i], i);
    }
  }

  lemma FirstChild(nodes: seq<Node>, was: seq<Node>, parent: int, f: DirFile, i: nat)
    requires nodes <= was && |was| == |nodes| + i && parent < |nodes|
    ensures Link(was, parent, |nodes|, -1, f)[..|nodes|] == WithFirst(nodes, parent, |nodes| + i)
  {
    hide Link;
    LinkIs(was, parent, |nodes|, -1, f);
    assert was[..|nodes|] == nodes;
  }

  lemma Attached(nodes: seq<Node>, out: seq<Node>, parent: int, fs: seq<DirFile>, dp: int)
    requires Partly(out, parent, |nodes|, fs, |fs|, dp) && Headed(nodes, out, parent, fs, dp)
    ensures |out| == |nodes| + |fs| && -1 <= dp < |fs|
    ensures (if dp >= 0 then out[|nodes| + dp := out[|nodes| + dp].(next := -1)] else out) == Attach(nodes, parent, fs)
    ensures dp < 0 <==> NextAt(fs, 0) < 0
  {
    hide NextAt, NodeOf, NodesOf, Partly, WithFirst;
    PartlyFacts(out, parent, |nodes|, fs, |fs|, dp);
    LastStep(out, parent, |nodes|, fs, dp);
    if dp < 0 {
      NextSkips(fs, 0, |fs|);
      HereAt(fs, |fs|);
      NoChild(nodes, parent);
    }
  }

  lemma NoChild(nodes: seq<Node>, parent: int)
    requires parent < |nodes|
    ensures WithFirst(nodes, parent, -1) == nodes
  {
  }

  /** flist.c:1840-1850: a node after the last, and the link to it from the previous sibling or from the parent. */
  function Link(nodes: seq<Node>, parent: int, base: int, dp: int, f: DirFile): seq<Node>
    requires 0 <= base <= |nodes| && parent < base && (dp >= 0 ==> base + dp < |nodes|)
  {
    var more := nodes + [Node(parent, -1, -1, f.dup, f.tree)];
    if dp >= 0 then more[base + dp := more[base + dp].(next := |nodes|)]
    else if parent >= 0 then more[parent := more[parent].(first := |nodes|)]
    else more
  }

  lemma LinkIs(nodes: seq<Node>, parent: int, base: int, dp: int, f: DirFile)
    requires 0 <= base <= |nodes| && parent < base && (dp >= 0 ==> base + dp < |nodes|)
    ensures var out := Link(nodes, parent, base, dp, f);
      && |out| == |nodes| + 1 && out[|nodes|] == Node(parent, -1, -1, f.dup, f.tree)
      && (forall k :: base <= k < |nodes| ==>
            out[k] == if k == base + dp && dp >= 0 then nodes[k].(next := |nodes|) else nodes[k])
      && out[..base] == if dp >= 0 then nodes[..base] else WithFirst(nodes[..base], parent, |nodes|)
  {
  }

  lemma PartlyStart(nodes: seq<Node>, parent: int, fs: seq<DirFile>)
    requires parent < |nodes|
    ensures Partly(nodes, parent, |nodes|, fs, 0, -1) && Headed(nodes, nodes, parent, fs, -1)
  {
  }

  lemma PartlyFacts(nodes: seq<Node>, parent: int, base: int, fs: seq<DirFile>, i: nat, dp: int)
    requires Partly(nodes, parent, base, fs, i, dp)
    ensures |nodes| == base + i && -1 <= dp < i && 0 <= base && parent < base
    ensures dp == -1 ==> forall k :: 0 <= k < i && k < |fs| ==> fs[k].dot
  {
  }

  lemma HereAt(fs: seq<DirFile>, i: nat)
    ensures NextAt(fs, i) == if i < |fs| && !fs[i].dot then i else if i < |fs| then NextAt(fs, i + 1) else -1
  {
  }

  // ---------- what is still to be scanned ----------

  /** A directory and its duplicates, from index idx on. */
  datatype Group = Group(idx: nat, tree: Tree)
  {
    function Last(): nat {
      idx + tree.dups
    }
  }

  /** Where the directories of a list come to lie. */
  function Laid(ks: Kids, base: nat): seq<Group> {
    match ks
    case NoKids => []
    case Dot(rest) => Laid(rest, base + 1)
    case Sub(t, rest) => [Group(base, t)] + Laid(rest, base + t.dups + 1)
  }

  ghost predicate GroupOk(nodes: seq<Node>, parent: int, g: Group, next: int) {
    && g.Last() < |nodes| && nodes[g.idx].tree == g.tree
    && forall k :: g.idx <= k <= g.Last() ==>
         && nodes[k].parent == parent && nodes[k].dup == (k > g.idx)
         && nodes[k].next == if k < g.Last() then k + 1 else next
  }

  function NextIdx(gs: seq<Group>, i: nat): int {
    if i < |gs| then gs[i].idx else -1
  }

  /** A chain of siblings; the first of each group is no duplicate. */
  ghost predicate Chain(nodes: seq<Node>, parent: int, gs: seq<Group>) {
    forall i :: 0 <= i < |gs| ==> GroupOk(nodes, parent, gs[i], NextIdx(gs, i + 1))
  }

  /** The first linked directory of a list is the first group. */
  lemma {:induction false} FirstLaid(pre: seq<DirFile>, ks: Kids, base: nat)
    ensures Index(base, NextAt(pre + Flatten(ks), |pre|)) == NextIdx(Laid(ks, base + |pre|), 0)
    decreases ks
  {
    var fs := pre + Flatten(ks);
    match ks
    case NoKids =>
    case Dot(rest) =>
      assert fs == pre + [DOT_FILE] + Flatten(rest);
      FirstLaid(pre + [DOT_FILE], rest, base);
    case Sub(t, rest) =>
      assert fs[|pre|] == Twins(t)[0];
  }

  lemma GroupLaid(pre: seq<DirFile>, t: Tree, rest: Kids, nodes: seq<Node>, parent: int, base: nat)
    requires var fs := pre + Twins(t) + Flatten(rest);
      |nodes| == base + |fs| && forall k :: 0 <= k < |fs| ==> nodes[base + k] == NodeOf(fs, parent, base, k)
    ensures GroupOk(nodes, parent, Group(base + |pre|, t), NextIdx(Laid(rest, base + |pre| + t.dups + 1), 0))
  {
    var twins := Twins(t);
    var fs, g := pre + twins + Flatten(rest), Group(base + |pre|, t);
    FirstLaid(pre + twins, rest, base);
    assert fs[|pre|] == twins[0] && nodes[base + |pre|] == NodeOf(fs, parent, base, |pre|);
    forall k | g.idx <= k <= g.Last()
      ensures nodes[k].parent == parent && nodes[k].dup == (k > g.idx)
      ensures nodes[k].next == if k < g.Last() then k + 1 else NextIdx(Laid(rest, base + |pre| + t.dups + 1), 0)
    {
      var i := k - base;
      assert fs[i] == twins[i - |pre|];
      assert nodes[base + i] == NodeOf(fs, parent, base, i);
      if k < g.Last() {
        assert fs[i + 1] == twins[i + 1 - |pre|];
      }
    }
  }

  lemma ChainCons(nodes: seq<Node>, parent: int, g: Group, gs: seq<Group>)
    requires GroupOk(nodes, parent, g, NextIdx(gs, 0)) && Chain(nodes, parent, gs)
    ensures Chain(nodes, parent, [g] + gs)
  {
    hide GroupOk;
    var all := [g] + gs;
    forall i | 0 <= i < |all| ensures GroupOk(nodes, parent, all[i], NextIdx(all, i + 1)) {
      if i > 0 {
        assert GroupOk(nodes, parent, gs[i - 1], NextIdx(gs, i));
      }
    }
  }

  /** The nodes that add_dirs_to_tree makes of a list form a chain. */
  lemma {:induction false} ListIsChain(pre: seq<DirFile>, ks: Kids, nodes: seq<Node>, parent: int, base: nat)
    requires var fs := pre + Flatten(ks);
      |nodes| == base + |fs| && forall k :: 0 <= k < |fs| ==> nodes[base + k] == NodeOf(fs, parent, base, k)
    ensures Chain(nodes, parent, Laid(ks, base + |pre|))
    decreases ks
  {
    hide NodeOf, GroupOk;
    var fs := pre + Flatten(ks);
    match ks
    case NoKids =>
    case Dot(rest) =>
      assert fs == pre + [DOT_FILE] + Flatten(rest);
      ListIsChain(pre + [DOT_FILE], rest, nodes, parent, base);
    case Sub(t, rest) =>
      var twins := Twins(t);
      assert fs == pre + twins + Flatten(rest);
      GroupLaid(pre, t, rest, nodes, parent, base);
      ListIsChain(pre + twins, rest, nodes, parent, base);
      ChainCons(nodes, parent, Group(base + |pre|, t), Laid(rest, base + |pre| + t.dups + 1));
  }
}
