/** flist.c:2141-2242, 2592-2599, 2639-2650: the extra file lists of incremental recursion, sent on demand. */
module ExtraLists {
  import opened Bytes
  import opened DirTree

  // ---------- the place in the tree ----------

  /** A chain of siblings from the one in work on, and the directory they belong to. */
  datatype Frame = Frame(parent: int, groups: seq<Group>)

  /** The open chains, innermost first: each belongs to the group in work of the next one out. */
  ghost predicate Stacked(nodes: seq<Node>, frames: seq<Frame>) {
    && frames != [] && frames[0].groups != [] && Chain(nodes, frames[0].parent, frames[0].groups)
    && if |frames| == 1 then frames[0].parent == -1
       else Stacked(nodes, frames[1..]) && frames[0].parent == frames[1].groups[0].Last()
  }

  /** What is left of the outer chains, after the groups in work. */
  function Tails(frames: seq<Frame>): seq<Group> {
    if frames == [] then [] else (if frames[0].groups == [] then [] else frames[0].groups[1..]) + Tails(frames[1..])
  }

  /** Every group that is linked and not yet sent, in the order they will be sent. */
  function Pending(frames: seq<Frame>): seq<Group> {
    if frames == [] then [] else frames[0].groups + Tails(frames[1..])
  }

  /** The scans that a sequence of groups leads to. */
  function Work(gs: seq<Group>): seq<Tree> {
    if gs == [] then [] else [gs[0].tree] + Preorder(gs[0].tree.kids) + Work(gs[1..])
  }

  lemma {:induction false} WorkAppend(a: seq<Group>, b: seq<Group>)
    ensures Work(a + b) == Work(a) + Work(b)
  {
    hide Preorder;
    if a == [] {
      assert a + b == b;
    } else {
      WorkAppend(a[1..], b);
      assert (a + b)[0] == a[0] && (a + b)[1..] == a[1..] + b;
      Associative([a[0].tree] + Preorder(a[0].tree.kids), Work(a[1..]), Work(b));
    }
  }

  lemma {:induction false} WorkLaid(ks: Kids, base: nat)
    ensures Work(Laid(ks, base)) == Preorder(ks)
    decreases ks
  {
    match ks
    case NoKids =>
    case Dot(rest) => WorkLaid(rest, base + 1);
    case Sub(t, rest) =>
      WorkLaid(rest, base + t.dups + 1);
      assert Laid(ks, base)[1..] == Laid(rest, base + t.dups + 1);
  }

  /** No two groups share an index. */
  ghost predicate Apart(gs: seq<Group>) {
    forall i, j :: 0 <= i < |gs| && 0 <= j < |gs| && i != j ==> gs[i].Last() < gs[j].idx || gs[j].Last() < gs[i].idx
  }

  lemma {:induction false} LaidBounds(ks: Kids, base: nat)
    ensures Apart(Laid(ks, base))
    ensures forall i :: 0 <= i < |Laid(ks, base)| ==>
      base <= Laid(ks, base)[i].idx <= Laid(ks, base)[i].Last() < base + |Flatten(ks)|
    decreases ks
  {
    match ks
    case NoKids =>
    case Dot(rest) => LaidBounds(rest, base + 1);
    case Sub(t, rest) => LaidBounds(rest, base + t.dups + 1);
  }

  // ---------- adding a list ----------

  lemma AttachAt(nodes: seq<Node>, parent: int, fs: seq<DirFile>)
    requires parent < |nodes|
    ensures var out := Attach(nodes, parent, fs);
      && |out| == |nodes| + |fs|
      && (forall k :: 0 <= k < |fs| ==> out[|nodes| + k] == NodeOf(fs, parent, |nodes|, k))
      && (forall k :: 0 <= k < |nodes| ==> out[k] == nodes[k].(first := out[k].first))
      && (forall k :: 0 <= k < |nodes| && k != parent ==> out[k].first == nodes[k].first)
      && (parent >= 0 ==> out[parent].first == if NextAt(fs, 0) >= 0 then |nodes| + NextAt(fs, 0) else nodes[parent].first)
  {
    hide NodeOf, NodesOf, NextAt, WithFirst;
    FirstSet(nodes, parent, Index(|nodes|, NextAt(fs, 0)));
  }

  lemma FirstSet(nodes: seq<Node>, parent: int, child: int)
    requires parent < |nodes|
    ensures var out := WithFirst(nodes, parent, child);
      && |out| == |nodes|
      && (forall k :: 0 <= k < |nodes| ==> out[k] == nodes[k].(first := out[k].first))
      && (forall k :: 0 <= k < |nodes| && k != parent ==> out[k].first == nodes[k].first)
      && (parent >= 0 ==> out[parent].first == if child >= 0 then child else nodes[parent].first)
  {
  }

  lemma AttachedChain(nodes: seq<Node>, parent: int, ks: Kids)
    requires parent < |nodes|
    ensures Chain(Attach(nodes, parent, Flatten(ks)), parent, Laid(ks, |nodes|))
    ensures NextAt(Flatten(ks), 0) >= 0 <==> Laid(ks, |nodes|) != []
    ensures Laid(ks, |nodes|) != [] ==> |nodes| + NextAt(Flatten(ks), 0) == Laid(ks, |nodes|)[0].idx
  {
    hide NodeOf, Attach, Chain, Flatten, Laid, NextAt;
    var fs := Flatten(ks);
    assert [] + fs == fs;
    AttachAt(nodes, parent, fs);
    ListIsChain([], ks, Attach(nodes, parent, fs), parent, |nodes|);
    FirstLaid([], ks, |nodes|);
  }

  /** Older chains do not notice. */
  lemma ChainStays(nodes: seq<Node>, out: seq<Node>, parent: int, gs: seq<Group>)
    requires Chain(nodes, parent, gs) && |nodes| <= |out|
    requires forall k :: 0 <= k < |nodes| ==> out[k] == nodes[k].(first := out[k].first)
    ensures Chain(out, parent, gs)
  {
    forall i | 0 <= i < |gs| ensures GroupOk(out, parent, gs[i], NextIdx(gs, i + 1)) {
      assert GroupOk(nodes, parent, gs[i], NextIdx(gs, i + 1));
    }
  }

  lemma {:induction false} StackStays(nodes: seq<Node>, out: seq<Node>, frames: seq<Frame>)
    requires Stacked(nodes, frames) && |nodes| <= |out|
    requires forall k :: 0 <= k < |nodes| ==> out[k] == nodes[k].(first := out[k].first)
    ensures Stacked(out, frames)
    decreases |frames|
  {
    hide Chain;
    ChainStays(nodes, out, frames[0].parent, frames[0].groups);
    if |frames| > 1 {
      StackStays(nodes, out, frames[1..]);
    }
  }

  // ---------- one list ----------

  /** Groups that have not been sent have no children yet. */
  ghost predicate Fresh(nodes: seq<Node>, gs: seq<Group>) {
    forall i :: 0 <= i < |gs| ==> gs[i].Last() < |nodes| && nodes[gs[i].Last()].first == -1
  }

  /** Where the search is: at the head of the innermost chain. */
  ghost predicate Place(nodes: seq<Node>, cur: int, frames: seq<Frame>) {
    Stacked(nodes, frames) && cur == frames[0].groups[0].idx && Fresh(nodes, Pending(frames))
  }

  lemma DupsOf(nodes: seq<Node>, frames: seq<Frame>, k: int)
    requires Stacked(nodes, frames)
    ensures var g := frames[0].groups[0];
      && g.Last() < |nodes| && nodes[g.idx].tree == g.tree
      && (g.idx <= k <= g.Last() ==>
            && nodes[k].next == (if k < g.Last() then k + 1 else NextIdx(frames[0].groups, 1))
            && nodes[k].dup == (k > g.idx) && nodes[k].parent == frames[0].parent)
      && (|frames[0].groups| > 1 ==> frames[0].groups[1].idx < |nodes| && !nodes[frames[0].groups[1].idx].dup)
  {
    var f := frames[0];
    assert GroupOk(nodes, f.parent, f.groups[0], NextIdx(f.groups, 1));
    if |f.groups| > 1 {
      assert GroupOk(nodes, f.parent, f.groups[1], NextIdx(f.groups, 2));
    }
  }

  /** flist.c:2178-2189: on to the last duplicate. */
  method LastDup(nodes: seq<Node>, cur: int, ghost frames: seq<Frame>) returns (last: int)
    requires Stacked(nodes, frames) && cur == frames[0].groups[0].idx
    ensures last == frames[0].groups[0].Last()
  {
    ghost var g := frames[0].groups[0];
    hide Stacked;
    last := cur;
    DupsOf(nodes, frames, last);
    while nodes[last].next >= 0 && nodes[nodes[last].next].dup
      invariant g.idx <= last <= g.Last()
      invariant last < |nodes| && nodes[last].next < |nodes|
      decreases g.Last() - last
    {
      DupsOf(nodes, frames, last);
      last := nodes[last].next;
      DupsOf(nodes, frames, last);
    }
    DupsOf(nodes, frames, last);
    DupsOf(nodes, frames, last + 1);
  }

  /** flist.c:2221-2236: up until a directory has a next sibling; -1 at the end of the tree. */
  method ClimbOn(nodes: seq<Node>, last: int, ghost frames: seq<Frame>) returns (next: int, ghost onward: seq<Frame>)
    requires Stacked(nodes, frames) && last == frames[0].groups[0].Last()
    ensures Pending(onward) == Tails(frames)
    ensures next >= -1 && (onward == [] <==> next == -1)
    ensures onward != [] ==> Stacked(nodes, onward) && next == onward[0].groups[0].idx
  {
    hide Chain;
    var dp := last;
    onward := frames;
    DupsOf(nodes, onward, dp);
    while nodes[dp].next < 0
      invariant Stacked(nodes, onward) && dp == onward[0].groups[0].Last() && Tails(onward) == Tails(frames)
      invariant dp < |nodes|
      decreases |onward|
    {
      DupsOf(nodes, onward, dp);
      assert onward[0].groups[1..] == [];
      next := nodes[dp].parent;
      if next < 0 {
        LastFrame(nodes, onward);
        onward := [];
        return -1, [];
      }
      onward := onward[1..];
      dp := next;
      DupsOf(nodes, onward, dp);
    }
    DupsOf(nodes, onward, dp);
    next := nodes[dp].next;
    NextGroup(nodes, onward);
    onward := [Frame(onward[0].parent, onward[0].groups[1..])] + onward[1..];
  }

  lemma LastFrame(nodes: seq<Node>, frames: seq<Frame>)
    requires Stacked(nodes, frames) && frames[0].parent < 0
    ensures |frames| == 1
  {
  }

  lemma NextGroup(nodes: seq<Node>, frames: seq<Frame>)
    requires Stacked(nodes, frames) && |frames[0].groups| > 1
    ensures var onward := [Frame(frames[0].parent, frames[0].groups[1..])] + frames[1..];
      Stacked(nodes, onward) && Pending(onward) == Tails(frames)
  {
    hide GroupOk;
    var f := frames[0];
    var g := Frame(f.parent, f.groups[1..]);
    var onward := [g] + frames[1..];
    assert onward[1..] == frames[1..];
    forall i | 0 <= i < |g.groups| ensures GroupOk(nodes, g.parent, g.groups[i], NextIdx(g.groups, i + 1)) {
      assert GroupOk(nodes, f.parent, f.groups[i + 1], NextIdx(f.groups, i + 2));
    }
  }

  /** After the list of the first pending group, its directories come first. */
  lemma PendingMoves(nodes: seq<Node>, gs: seq<Group>, ks: Kids, out: seq<Node>)
    requires gs != [] && Fresh(nodes, gs) && Apart(gs) && ks == gs[0].tree.kids
    requires out == Attach(nodes, gs[0].Last(), Flatten(ks))
    ensures var onward := Laid(ks, |nodes|) + gs[1..];
      Fresh(out, onward) && Apart(onward) && Work(gs) == [gs[0].tree] + Work(onward)
  {
    hide Attach, Work, Flatten, Laid;
    var young, rest := Laid(ks, |nodes|), gs[1..];
    LaidBounds(ks, |nodes|);
    AttachAt(nodes, gs[0].Last(), Flatten(ks));
    WorkAppend(young, rest);
    WorkLaid(ks, |nodes|);
    WorkHead(gs);
    NewNodes(nodes, gs[0].Last(), ks, out);
    var onward := young + rest;
    forall i | 0 <= i < |onward| ensures onward[i].Last() < |out| && out[onward[i].Last()].first == -1 {
      if i >= |young| {
        assert onward[i] == gs[i - |young| + 1];
      }
    }
    ApartMoves(nodes, gs, young);
  }

  lemma WorkHead(gs: seq<Group>)
    requires gs != []
    ensures Work(gs) == [gs[0].tree] + (Preorder(gs[0].tree.kids) + Work(gs[1..]))
  {
    hide Preorder;
    Associative([gs[0].tree], Preorder(gs[0].tree.kids), Work(gs[1..]));
  }

  lemma NewNodes(nodes: seq<Node>, parent: int, ks: Kids, out: seq<Node>)
    requires parent < |nodes| && out == Attach(nodes, parent, Flatten(ks))
    ensures forall k :: |nodes| <= k < |out| ==> out[k].first == -1
  {
    hide Attach, Flatten;
    var fs := Flatten(ks);
    AttachAt(nodes, parent, fs);
    forall k | |nodes| <= k < |out| ensures out[k].first == -1 {
      assert out[|nodes| + (k - |nodes|)] == NodeOf(fs, parent, |nodes|, k - |nodes|);
    }
  }

  lemma ApartMoves(nodes: seq<Node>, gs: seq<Group>, young: seq<Group>)
    requires gs != [] && Fresh(nodes, gs) && Apart(gs) && Apart(young)
    requires forall i :: 0 <= i < |young| ==> |nodes| <= young[i].idx
    ensures Apart(young + gs[1..])
  {
    var onward := young + gs[1..];
    forall i, j | 0 <= i < |onward| && 0 <= j < |onward| && i != j
      ensures onward[i].Last() < onward[j].idx || onward[j].Last() < onward[i].idx
    {
      var a, b := i - |young| + 1, j - |young| + 1;
      assert i >= |young| ==> onward[i] == gs[a];
      assert j >= |young| ==> onward[j] == gs[b];
    }
  }

  /** What adding a list does to the place. */
  lemma Added(nodes: seq<Node>, frames: seq<Frame>, out: seq<Node>)
    requires Stacked(nodes, frames) && Fresh(nodes, Pending(frames)) && Apart(Pending(frames))
    requires var g := frames[0].groups[0]; g.Last() < |nodes| && out == Attach(nodes, g.Last(), Flatten(g.tree.kids))
    ensures var g := frames[0].groups[0];
      var laid := Laid(g.tree.kids, |nodes|);
      var onward := laid + Pending(frames)[1..];
      && |out| == |nodes| + |Flatten(g.tree.kids)| && Stacked(out, frames) && Chain(out, g.Last(), laid)
      && out[g.Last()].first == NextIdx(laid, 0)
      && Fresh(out, onward) && Apart(onward) && Work(Pending(frames)) == [g.tree] + Work(onward)
  {
    var g, gs := frames[0].groups[0], Pending(frames);
    assert gs[0] == g;
    hide Stacked, Fresh, Apart, Work, Flatten, Laid, Attach, Chain, NextAt, Pending;
    AttachAt(nodes, g.Last(), Flatten(g.tree.kids));
    AttachedChain(nodes, g.Last(), g.tree.kids);
    PendingMoves(nodes, gs, g.tree.kids, out);
    StackStays(nodes, out, frames);
    ChildOf(nodes, gs);
  }

  /** flist.c:2218-2236: down to the first child, or up and along. */
  method MoveOn(nodes: seq<Node>, last: int, ghost frames: seq<Frame>, ghost laid: seq<Group>)
    returns (next: int, ghost onward: seq<Frame>)
    requires Stacked(nodes, frames) && last == frames[0].groups[0].Last() < |nodes|
    requires Chain(nodes, last, laid) && nodes[last].first == NextIdx(laid, 0)
    ensures Pending(onward) == laid + Tails(frames)
    ensures next >= -1 && (onward == [] <==> next == -1)
    ensures onward != [] ==> Stacked(nodes, onward) && next == onward[0].groups[0].idx
  {
    if nodes[last].first >= 0 {
      next := nodes[last].first;
      onward := [Frame(last, laid)] + frames;
      Descended(nodes, frames, last, laid);
      TailsOf(frames);
    } else {
      hide Stacked, Chain, Pending, Tails;
      next, onward := ClimbOn(nodes, last, frames);
      assert laid + Tails(frames) == Tails(frames);
    }
  }

  /** Directories stay what they are when more are added. */
  ghost predicate SameTrees(nodes: seq<Node>, out: seq<Node>) {
    |nodes| <= |out| && forall k :: 0 <= k < |nodes| ==> out[k].tree == nodes[k].tree && out[k].dup == nodes[k].dup
  }

  lemma AttachKeeps(nodes: seq<Node>, parent: int, fs: seq<DirFile>)
    requires parent < |nodes|
    ensures SameTrees(nodes, Attach(nodes, parent, fs))
  {
    hide Attach, NodeOf, NextAt;
    AttachAt(nodes, parent, fs);
  }

  /** flist.c:2157-2236: one list, and on to the next directory. */
  method OneList(nodes: seq<Node>, cur: int, ghost frames: seq<Frame>)
    returns (out: seq<Node>, next: int, tree: Tree, ghost onward: seq<Frame>)
    requires frames != [] && Place(nodes, cur, frames) && Apart(Pending(frames))
    ensures Stacked(nodes, frames) && tree == frames[0].groups[0].tree
    ensures |out| == |nodes| + |Flatten(tree.kids)| && SameTrees(nodes, out)
    ensures 0 <= cur < |nodes| && nodes[cur].tree == tree && !nodes[cur].dup
    ensures Pending(onward) == Laid(tree.kids, |nodes|) + Pending(frames)[1..]
    ensures next >= -1 && (onward == [] <==> next == -1)
    ensures onward != [] ==> Place(out, next, onward)
    ensures Apart(Pending(onward)) && Work(Pending(frames)) == [tree] + Work(Pending(onward))
  {
    ghost var g := frames[0].groups[0];
    hide Stacked, Fresh, Apart, Work, Flatten, Laid, Attach, Chain, Preorder, NextAt, Pending, Tails, SameTrees;
    DupsOf(nodes, frames, cur);
    tree := nodes[cur].tree;
    ghost var laid := Laid(tree.kids, |nodes|);
    var last := LastDup(nodes, cur, frames);
    var sendDir;
    out, sendDir := AddDirs(nodes, last, Flatten(tree.kids), cur);
    Added(nodes, frames, out);
    AttachKeeps(nodes, last, Flatten(tree.kids));
    TailsOf(frames);
    next, onward := MoveOn(out, last, frames, laid);
  }

  lemma ChildOf(nodes: seq<Node>, gs: seq<Group>)
    requires gs != [] && Fresh(nodes, gs)
    ensures gs[0].Last() < |nodes| && nodes[gs[0].Last()].first == -1
  {
  }

  lemma TailsOf(frames: seq<Frame>)
    requires frames != [] && frames[0].groups != []
    ensures Tails(frames) == Pending(frames)[1..]
  {
  }

  lemma Descended(nodes: seq<Node>, frames: seq<Frame>, last: int, laid: seq<Group>)
    requires Stacked(nodes, frames) && last == frames[0].groups[0].Last() && laid != [] && Chain(nodes, last, laid)
    ensures var onward := [Frame(last, laid)] + frames;
      Stacked(nodes, onward) && Pending(onward) == laid + Pending(frames)[1..]
  {
    hide Chain;
    var onward := [Frame(last, laid)] + frames;
    assert onward[1..] == frames;
    TailsOf(frames);
  }

  // ---------- what the receiver hears ----------

  /** A list with the number of directories in it, for a directory given by its index; or the end of all lists. */
  datatype Event = List(ndx: int, dirs: nat) | EndOfLists

  /** The receiver's dir_flist->used. */
  function Used(out: seq<Event>, base: nat): nat {
    if out == [] then base
    else Used(out[..|out| - 1], base) + if out[|out| - 1].List? then out[|out| - 1].dirs else 0
  }

  /** The directories marked FLAG_GOT_DIR_FLIST. */
  function Got(out: seq<Event>): set<int> {
    if out == [] then {}
    else Got(out[..|out| - 1]) + if out[|out| - 1].List? then {out[|out| - 1].ndx} else {}
  }

  predicate Ended(out: seq<Event>) {
    out != [] && out[|out| - 1].EndOfLists?
  }

  /** Neither check of recv_file_list fires, and nothing follows the end. */
  predicate Heard(out: seq<Event>, base: nat) {
    out == [] || (
      var before, e := out[..|out| - 1], out[|out| - 1];
      && Heard(before, base) && !Ended(before)
      && (e.List? ==> 0 <= e.ndx < Used(before, base) && e.ndx !in Got(before)))
  }

  lemma HeardMore(out: seq<Event>, base: nat, e: Event)
    requires Heard(out, base) && !Ended(out) && (e.List? ==> 0 <= e.ndx < Used(out, base) && e.ndx !in Got(out))
    ensures Heard(out + [e], base) && Ended(out + [e]) == e.EndOfLists?
    ensures Used(out + [e], base) == Used(out, base) + if e.List? then e.dirs else 0
    ensures Got(out + [e]) == Got(out) + if e.List? then {e.ndx} else {}
  {
    assert (out + [e])[..|out|] == out;
  }

  lemma {:induction false} GotBelow(out: seq<Event>, base: nat)
    requires Heard(out, base)
    ensures forall n :: n in Got(out) ==> 0 <= n < Used(out, base)
  {
    if out != [] {
      GotBelow(out[..|out| - 1], base);
    }
  }

  ghost predicate Unsent(gs: seq<Group>, got: set<int>) {
    forall i :: 0 <= i < |gs| ==> gs[i].idx !in got
  }

  lemma UnsentMoves(nodes: seq<Node>, gs: seq<Group>, ks: Kids, got: set<int>)
    requires gs != [] && Fresh(nodes, gs) && Apart(gs) && Unsent(gs, got) && forall n :: n in got ==> n < |nodes|
    ensures Unsent(Laid(ks, |nodes|) + gs[1..], got + {gs[0].idx})
  {
    hide Laid, Flatten;
    LaidBounds(ks, |nodes|);
    var laid := Laid(ks, |nodes|);
    var onward := laid + gs[1..];
    forall i | 0 <= i < |onward| ensures onward[i].idx !in got + {gs[0].idx} {
      if i >= |laid| {
        assert onward[i] == gs[i - |laid| + 1];
      }
    }
  }

  // ---------- the sender ----------

  /** The lists are those of the directories visited, in order: each is said to be for the first directory of its name,
      with as many directories as the scan found. */
  ghost predicate Sends(nodes: seq<Node>, out: seq<Event>, visited: seq<Tree>) {
    if out == [] then visited == []
    else
      var before, e := out[..|out| - 1], out[|out| - 1];
      if e.EndOfLists? then Sends(nodes, before, visited)
      else visited != [] && Sends(nodes, before, visited[..|visited| - 1]) && ListOf(nodes, e, visited[|visited| - 1])
  }

  ghost predicate ListOf(nodes: seq<Node>, e: Event, tree: Tree) {
    e.List? && 0 <= e.ndx < |nodes| && !nodes[e.ndx].dup && nodes[e.ndx].tree == tree && e.dirs == |Flatten(tree.kids)|
  }

  lemma {:induction false} SendsStays(nodes: seq<Node>, more: seq<Node>, out: seq<Event>, visited: seq<Tree>)
    requires Sends(nodes, out, visited) && SameTrees(nodes, more)
    ensures Sends(more, out, visited)
    decreases |out|
  {
    hide Flatten;
    if out != [] {
      SendsStays(nodes, more, out[..|out| - 1],
                 if out[|out| - 1].EndOfLists? then visited else visited[..|visited| - 1]);
    }
  }

  lemma SendsMore(nodes: seq<Node>, more: seq<Node>, out: seq<Event>, visited: seq<Tree>, e: Event, tree: Tree, last: bool)
    requires Sends(nodes, out, visited) && SameTrees(nodes, more) && ListOf(nodes, e, tree)
    ensures Sends(more, out + [e] + (if last then [EndOfLists] else []), visited + [tree])
  {
    hide Flatten;
    SendsStays(nodes, more, out, visited);
    assert (out + [e])[..|out|] == out && (visited + [tree])[..|visited|] == visited;
    assert Sends(more, out + [e], visited + [tree]);
    if last {
      assert (out + [e] + [EndOfLists])[..|out| + 1] == out + [e];
    } else {
      assert out + [e] + [] == out + [e];
    }
  }

  /** How many files the lists of these directories hold. */
  function Files(visited: seq<Tree>): nat {
    if visited == [] then 0 else Files(visited[..|visited| - 1]) + visited[|visited| - 1].files
  }

  /** How many files a call wants on their way: one more than there are, or what it was told. */
  function Wanted(atLeast: int, total: int, oldTotal: int): int {
    if atLeast < 0 then total - oldTotal + 1 else atLeast
  }

  datatype Progress = Progress(nodes: seq<Node>, cur: int, eof: bool, total: nat)

  datatype History = History(roots: Kids, frames: seq<Frame>, visited: seq<Tree>)

  /** Nothing linked is lost, nothing is sent twice, and the end is said when nothing is left. */
  ghost predicate Consistent(p: Progress, out: seq<Event>, h: History) {
    var base, gs := |Flatten(h.roots)|, Pending(h.frames);
    && (h.frames != [] ==> Place(p.nodes, p.cur, h.frames))
    && p.eof == (h.frames == []) == Ended(out)
    && h.visited + Work(gs) == Preorder(h.roots)
    && Apart(gs) && Unsent(gs, Got(out)) && Heard(out, base) && Used(out, base) == |p.nodes|
    && Sends(p.nodes, out, h.visited)
  }

  class ListSender {
    var p: Progress
    var out: seq<Event>
    ghost var h: History

    ghost predicate Valid()
      reads this
    {
      Consistent(p, out, h)
    }

    /** send_file_list, flist.c:2586-2599: the first list's directories are the roots. */
    constructor (roots: Kids, files: nat)
      ensures Valid() && h.roots == roots && h.visited == [] && p.total == files
      ensures p.eof <==> Preorder(roots) == []
    {
      hide Attach, Flatten, Laid, Preorder, NextAt, Consistent;
      var nodes, cur := AddDirs([], -1, Flatten(roots), -1);
      p := Progress(nodes, cur, cur < 0, files);
      out := if cur < 0 then [EndOfLists] else [];
      h := History(roots, if cur < 0 then [] else [Frame(-1, Laid(roots, 0))], []);
      StartOk(roots, nodes, cur, files);
    }

    /** send_extra_file_list: lists until enough files are on their way, or the end. */
    method SendExtra(atLeast: int, oldTotal: int)
      requires Valid()
      modifies this
      ensures Valid() && h.roots == old(h.roots)
      ensures old(out) <= out && old(h.visited) <= h.visited
      ensures p.eof || p.total - oldTotal >= Wanted(atLeast, old(p.total), oldTotal)
      ensures old(p.eof) || old(p.total) - oldTotal >= Wanted(atLeast, old(p.total), oldTotal) ==>
        p == old(p) && out == old(out) && h == old(h)
      ensures p.total == old(p.total) + Files(h.visited[|old(h.visited)|..])
      ensures h.visited != old(h.visited) ==>
        p.total - oldTotal - h.visited[|h.visited| - 1].files < Wanted(atLeast, old(p.total), oldTotal)
    {
      hide Consistent, Files, Work, Pending;
      NoFiles(h.visited);
      if p.eof {
        return;
      }
      var enough := Wanted(atLeast, p.total, oldTotal);
      while !p.eof && p.total - oldTotal < enough
        invariant Valid() && h.roots == old(h.roots) && old(out) <= out && old(h.visited) <= h.visited
        invariant p.total == old(p.total) + Files(h.visited[|old(h.visited)|..])
        invariant if h.visited == old(h.visited) then p == old(p) && out == old(out) && h == old(h)
                  else old(p.total) - oldTotal < enough && p.total - oldTotal - h.visited[|h.visited| - 1].files < enough
        decreases |Work(Pending(h.frames))|
      {
        ghost var was := h.visited;
        SendOne();
        FilesMore(was, h.visited, |old(h.visited)|);
      }
    }

    /** flist.c:2156-2237: one pass of its loop. */
    method SendOne()
      requires Valid() && !p.eof
      modifies this
      ensures Valid() && h.roots == old(h.roots)
      ensures old(out) <= out && old(h.visited) <= h.visited
      ensures |Work(Pending(h.frames))| == |Work(Pending(old(h.frames)))| - 1
      ensures |h.visited| == |old(h.visited)| + 1 && p.total == old(p.total) + h.visited[|h.visited| - 1].files
    {
      hide Consistent, Pending, Work, Place, Stacked, Apart, Flatten, Laid, SameTrees;
      var nodes, next, tree;
      ghost var onward;
      InPlace(p, out, h);
      nodes, next, tree, onward := OneList(p.nodes, p.cur, h.frames);
      ghost var was, before := p, out;
      out := out + [List(p.cur, |nodes| - |p.nodes|)] + if next < 0 then [EndOfLists] else [];
      p := Progress(nodes, next, next < 0, p.total + tree.files);
      SentOk(was, before, h, nodes, next, tree, onward);
      h := History(h.roots, onward, h.visited + [tree]);
    }
  }

  lemma NoFiles(visited: seq<Tree>)
    ensures Files(visited[|visited|..]) == 0
  {
  }

  lemma FilesMore(was: seq<Tree>, now: seq<Tree>, k: nat)
    requires k <= |was| < |now| && was <= now && |now| == |was| + 1
    ensures Files(now[k..]) == Files(was[k..]) + now[|was|].files
  {
    assert now[k..][..|was| - k] == was[k..];
  }

  lemma InPlace(p: Progress, out: seq<Event>, h: History)
    requires Consistent(p, out, h) && !p.eof
    ensures h.frames != [] && Place(p.nodes, p.cur, h.frames) && Apart(Pending(h.frames))
  {
  }

  lemma SentOk(p: Progress, out: seq<Event>, h: History, nodes: seq<Node>, next: int, tree: Tree, onward: seq<Frame>)
    requires Consistent(p, out, h) && !p.eof && Stacked(p.nodes, h.frames) && tree == h.frames[0].groups[0].tree
    requires SameTrees(p.nodes, nodes) && 0 <= p.cur < |p.nodes| && p.nodes[p.cur].tree == tree && !p.nodes[p.cur].dup
    requires |nodes| == |p.nodes| + |Flatten(tree.kids)| && (onward == [] <==> next == -1) && next >= -1
    requires Pending(onward) == Laid(tree.kids, |p.nodes|) + Pending(h.frames)[1..]
    requires onward != [] ==> Place(nodes, next, onward)
    requires Apart(Pending(onward)) && Work(Pending(h.frames)) == [tree] + Work(Pending(onward))
    ensures Consistent(Progress(nodes, next, next < 0, p.total + tree.files),
                       out + [List(p.cur, |nodes| - |p.nodes|)] + (if next < 0 then [EndOfLists] else []),
                       History(h.roots, onward, h.visited + [tree]))
  {
    var base, gs := |Flatten(h.roots)|, Pending(h.frames);
    var e := List(p.cur, |nodes| - |p.nodes|);
    hide Stacked, Flatten, Laid, Work, Preorder, Pending, Tails, Heard, Used, Got, Ended, Unsent, Apart, Fresh, Sends, SameTrees;
    HeadSent(p, out, h);
    SendsMore(p.nodes, nodes, out, h.visited, e, tree, next < 0);
    Said(out, base, e, next < 0);
    UnsentMoves(p.nodes, gs, tree.kids, Got(out));
    Associative(h.visited, [tree], Work(Pending(onward)));
  }

  lemma HeadSent(p: Progress, out: seq<Event>, h: History)
    requires Consistent(p, out, h) && !p.eof
    ensures var gs := Pending(h.frames); gs != [] && gs[0].idx == p.cur && 0 <= p.cur < |p.nodes| && p.cur !in Got(out)
    ensures forall n :: n in Got(out) ==> n < |p.nodes|
  {
    hide Work, Preorder, Flatten, Chain, Heard, Used, Got;
    GotBelow(out, |Flatten(h.roots)|);
    assert Pending(h.frames)[0] == h.frames[0].groups[0];
  }

  lemma Said(out: seq<Event>, base: nat, e: Event, last: bool)
    requires Heard(out, base) && !Ended(out) && e.List? && 0 <= e.ndx < Used(out, base) && e.ndx !in Got(out)
    ensures var more := out + [e] + (if last then [EndOfLists] else []);
      && Heard(more, base) && Ended(more) == last && Used(more, base) == Used(out, base) + e.dirs
      && Got(more) == Got(out) + {e.ndx}
  {
    hide Heard, Used, Got, Ended;
    HeardMore(out, base, e);
    if last {
      HeardMore(out + [e], base, EndOfLists);
    } else {
      assert out + [e] + [] == out + [e];
    }
  }

  lemma StartOk(roots: Kids, nodes: seq<Node>, cur: int, files: nat)
    requires nodes == Attach([], -1, Flatten(roots)) && cur == NextAt(Flatten(roots), 0)
    ensures Consistent(Progress(nodes, cur, cur < 0, files), if cur < 0 then [EndOfLists] else [],
                       History(roots, if cur < 0 then [] else [Frame(-1, Laid(roots, 0))], []))
    ensures cur < 0 <==> Preorder(roots) == []
  {
    hide Attach, Flatten, Laid, Preorder, NextAt, Chain, Place, Apart, Work, Pending, Heard, Used, Got, Ended, Sends;
    NothingSent(nodes);
    StartPlace(roots, nodes);
    Silence(|Flatten(roots)|);
    NoWork();
    assert [] + Work(Laid(roots, 0)) == Work(Laid(roots, 0));
  }

  lemma NothingSent(nodes: seq<Node>)
    ensures Sends(nodes, [], []) && Sends(nodes, [EndOfLists], [])
  {
    assert [EndOfLists][..0] == [];
  }

  lemma Silence(base: nat)
    ensures Heard([], base) && !Ended([]) && Used([], base) == base && Got([]) == {}
    ensures Heard([EndOfLists], base) && Ended([EndOfLists]) && Used([EndOfLists], base) == base && Got([EndOfLists]) == {}
  {
    HeardMore([], base, EndOfLists);
    assert [] + [EndOfLists] == [EndOfLists];
  }

  lemma NoWork()
    ensures Pending([]) == [] && Work([]) == [] && Apart([])
  {
  }

  lemma StartPlace(roots: Kids, nodes: seq<Node>)
    requires nodes == Attach([], -1, Flatten(roots))
    ensures |nodes| == |Flatten(roots)|
    ensures var laid, n := Laid(roots, 0), NextAt(Flatten(roots), 0);
      && Apart(laid) && Work(laid) == Preorder(roots) && (laid == [] <==> n < 0)
      && (laid != [] ==> Place(nodes, n, [Frame(-1, laid)]) && Pending([Frame(-1, laid)]) == laid && Work(laid) != [])
  {
    hide Attach, Flatten, Laid, Preorder, NextAt, Chain;
    var laid := Laid(roots, 0);
    AttachAt([], -1, Flatten(roots));
    AttachedChain([], -1, roots);
    LaidBounds(roots, 0);
    WorkLaid(roots, 0);
    NewNodes([], -1, roots, nodes);
  }

  /** At the end every directory has been scanned once, parents first; before it, a proper part of them. */
  lemma AllScanned(p: Progress, out: seq<Event>, h: History)
    requires Consistent(p, out, h)
    ensures h.visited <= Preorder(h.roots) && (p.eof <==> h.visited == Preorder(h.roots))
  {
    hide Preorder, Flatten, Chain, Heard, Used, Got, Apart, Unsent, Fresh;
    var gs := Pending(h.frames);
    if h.frames != [] {
      assert gs[0] == h.frames[0].groups[0];
      WorkHead(gs);
    }
  }
}
