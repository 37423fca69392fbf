/** compat.c:215-366, 464-506: both ends pick the same algorithm from the two lists of names. */
module Negotiate {
  /** A row of valid_checksums or valid_compressions: several names may have one number. */
  datatype Row = Row(name: string, num: nat)

  /** The first row with this name. */
  function Lookup(table: seq<Row>, name: string): int
    decreases |table|
  {
    if table == [] then -1 else if table[0].name == name then table[0].num else Lookup(table[1..], name)
  }

  /** The first name of a number: main_nni. */
  function MainName(table: seq<Row>, num: int): string
    decreases |table|
  {
    if table == [] then "" else if table[0].num == num then table[0].name else MainName(table[1..], num)
  }

  /** nno->saw_len. */
  function SawLen(table: seq<Row>): (n: nat)
    ensures forall r :: r in table ==> r.num < n
  {
    if table == [] then 0
    else if table[0].num >= SawLen(table[1..]) then table[0].num + 1 else SawLen(table[1..])
  }

  /** The position of a number in a list, from 1; 0 if it is not there. */
  function Ordinal(list: seq<int>, num: int): (k: nat)
    ensures k <= |list| && (k > 0 <==> num in list) && (k > 0 ==> list[k - 1] == num)
    decreases |list|
  {
    if list == [] then 0
    else if list[|list| - 1] == num && num !in list[..|list| - 1] then |list|
    else Ordinal(list[..|list| - 1], num)
  }

  /** The numbers of the known names, each once, in order of appearance. */
  function Own(table: seq<Row>, tokens: seq<string>): seq<int> {
    if tokens == [] then []
    else
      var before, n := Own(table, tokens[..|tokens| - 1]), Lookup(table, tokens[|tokens| - 1]);
      if n < 0 || n in before then before else before + [n]
  }

  const INVALID := "INVALID"

  /** The list that is sent; a user's list without a known name becomes one name that nobody knows. */
  function Sent(table: seq<Row>, list: seq<int>, asked: bool): seq<string> {
    if list == [] && asked then [INVALID] else seq(|list|, i requires 0 <= i < |list| => MainName(table, list[i]))
  }

  ghost predicate NoRepeats(list: seq<int>) {
    forall i, j :: 0 <= i < j < |list| ==> list[i] != list[j]
  }

  lemma {:induction false} OwnNoRepeats(table: seq<Row>, tokens: seq<string>)
    ensures NoRepeats(Own(table, tokens)) && forall n :: n in Own(table, tokens) ==> n >= 0
  {
    if tokens != [] {
      OwnNoRepeats(table, tokens[..|tokens| - 1]);
    }
  }

  /** Where a number first occurs. */
  function Where(nums: seq<int>, n: int): nat {
    if nums == [] || nums[0] == n then 0 else 1 + Where(nums[1..], n)
  }

  lemma {:induction false} WhereMore(nums: seq<int>, last: int, n: int)
    ensures Where(nums, n) <= |nums| && (Where(nums, n) < |nums| <==> n in nums)
    ensures n in nums ==> Where(nums + [last], n) == Where(nums, n)
    ensures n !in nums && n == last ==> Where(nums + [last], n) == |nums|
  {
    if nums == [] {
      assert nums + [last] == [last];
    } else {
      WhereMore(nums[1..], last, n);
      assert (nums + [last])[1..] == nums[1..] + [last];
    }
  }

  /** The user's list holds the known names that were given, in the order in which they were first given. */
  lemma {:induction false} OwnOrder(table: seq<Row>, tokens: seq<string>)
    ensures forall n :: n in Own(table, tokens) <==> n >= 0 && n in Nums(table, tokens)
    ensures forall i, j :: 0 <= i < j < |Own(table, tokens)| ==>
      Where(Nums(table, tokens), Own(table, tokens)[i]) < Where(Nums(table, tokens), Own(table, tokens)[j])
  {
    hide Where;
    if tokens != [] {
      var before, last := tokens[..|tokens| - 1], tokens[|tokens| - 1];
      OwnOrder(table, before);
      var own, all, nums, n := Own(table, before), Own(table, tokens), Nums(table, before), Lookup(table, last);
      NumsMore(table, before, last);
      assert before + [last] == tokens;
      forall k | k in all ensures k in nums || k == n {
      }
      forall i, j | 0 <= i < j < |all| ensures Where(nums + [n], all[i]) < Where(nums + [n], all[j]) {
        WhereMore(nums, n, all[i]);
        WhereMore(nums, n, all[j]);
        assert all[i] == own[i] && own[i] in own;
        if j < |own| {
          assert own[j] in own;
        }
      }
    }
  }

  lemma NumsMore(table: seq<Row>, tokens: seq<string>, last: string)
    ensures Nums(table, tokens + [last]) == Nums(table, tokens) + [Lookup(table, last)]
  {
  }

  /** The saw ordinals are those of the list. */
  ghost predicate SawIs(saw: map<int, nat>, list: seq<int>) {
    (forall n :: n in saw.Keys <==> n in list) && (forall n :: n in list ==> saw[n] == Ordinal(list, n) > 0)
  }

  lemma SawMore(saw: map<int, nat>, list: seq<int>, n: int)
    requires SawIs(saw, list) && n !in list
    ensures SawIs(saw[n := |list| + 1], list + [n])
  {
    assert (list + [n])[..|list|] == list;
  }

  /** parse_nni_str on the words of the user's list: the list to send, and the ordinals. */
  method ParseOwn(table: seq<Row>, tokens: seq<string>) returns (list: seq<int>, saw: map<int, nat>)
    ensures list == Own(table, tokens) && SawIs(saw, list)
  {
    list, saw := [], map[];
    var cnt := 0;
    for i := 0 to |tokens|
      invariant list == Own(table, tokens[..i]) && cnt == |list| && SawIs(saw, list)
    {
      assert tokens[..i + 1][..i] == tokens[..i];
      var n := Lookup(table, tokens[i]);
      if n >= 0 && n !in saw {
        cnt := cnt + 1;
        SawMore(saw, list, n);
        list, saw := list + [n], saw[n := cnt];
      }
    }
    assert tokens[..|tokens|] == tokens;
  }

  /** get_default_nno_list without markup: the first name of every number, but not number 0 ("none") on a client. */
  function Default(table: seq<Row>, server: bool): seq<int> {
    if table == [] then []
    else
      var before, n := Default(table[..|table| - 1], server), table[|table| - 1].num;
      if n in before || (n == 0 && !server) then before else before + [n]
  }

  ghost predicate Numbered(table: seq<Row>, n: int) {
    exists r :: r in table && r.num == n
  }

  lemma NumberedSnoc(table: seq<Row>, n: int)
    requires table != []
    ensures Numbered(table, n) <==> n == table[|table| - 1].num || Numbered(table[..|table| - 1], n)
  {
    var last := |table| - 1;
    assert table == table[..last] + [table[last]] && table[last] in table;
  }

  lemma {:induction false} DefaultIs(table: seq<Row>, server: bool)
    ensures NoRepeats(Default(table, server))
    ensures forall n :: n in Default(table, server) <==> (n != 0 || server) && Numbered(table, n)
  {
    if table != [] {
      hide Numbered;
      DefaultIs(table[..|table| - 1], server);
      forall n ensures Numbered(table, n) <==> n == table[|table| - 1].num || Numbered(table[..|table| - 1], n) {
        NumberedSnoc(table, n);
      }
    } else {
      assert Default(table, server) == [];
    }
  }

  /** The row that a number's first name is in. */
  function FirstRow(table: seq<Row>, n: int): nat {
    if table == [] || table[0].num == n then 0 else 1 + FirstRow(table[1..], n)
  }

  lemma {:induction false} FirstRowIn(table: seq<Row>, n: int)
    ensures FirstRow(table, n) <= |table| && (FirstRow(table, n) < |table| <==> Numbered(table, n))
  {
    if table != [] && table[0].num != n {
      FirstRowIn(table[1..], n);
      assert table == [table[0]] + table[1..];
    } else if table != [] {
      assert table[0] in table;
    }
  }

  /** The name that is sent for a number is that of its first row. */
  lemma {:induction false} MainIsFirst(table: seq<Row>, n: int)
    requires Numbered(table, n)
    ensures var k := FirstRow(table, n);
      k < |table| && table[k].num == n && table[k].name == MainName(table, n) && forall i :: 0 <= i < k ==> table[i].num != n
    decreases |table|
  {
    FirstRowIn(table, n);
    if table[0].num != n {
      assert Numbered(table[1..], n);
      MainIsFirst(table[1..], n);
      assert forall i :: 0 < i < |table| ==> table[i] == table[1..][i - 1];
    }
  }

  lemma {:induction false} FirstRowPrefix(table: seq<Row>, r: Row, n: int)
    ensures FirstRow(table + [r], n) == if Numbered(table, n) then FirstRow(table, n) else if r.num == n then |table| else |table| + 1
  {
    FirstRowIn(table, n);
    if table == [] {
      assert table + [r] == [r];
    } else {
      assert (table + [r])[1..] == table[1..] + [r];
      FirstRowPrefix(table[1..], r, n);
      FirstRowIn(table[1..], n);
    }
  }

  /** The default list follows the table. */
  lemma {:induction false} DefaultOrder(table: seq<Row>, server: bool, i: nat, j: nat)
    requires i < j < |Default(table, server)|
    ensures FirstRow(table, Default(table, server)[i]) < FirstRow(table, Default(table, server)[j]) < |table|
  {
    var before, r := table[..|table| - 1], table[|table| - 1];
    assert table == before + [r];
    DefaultIs(before, server);
    var list := Default(before, server);
    FirstRowPrefix(before, r, Default(table, server)[i]);
    FirstRowPrefix(before, r, Default(table, server)[j]);
    assert list[i] in list;
    FirstRowIn(before, list[i]);
    if j < |list| {
      assert list[j] in list;
      DefaultOrder(before, server, i, j);
    }
  }

  /** The loop of get_default_nno_list: the list to send, and the ordinals. A number met before has a main_nni. */
  method DefaultList(table: seq<Row>, server: bool) returns (list: seq<int>, saw: map<int, nat>)
    ensures list == Default(table, server) && SawIs(saw, list)
  {
    list, saw := [], map[];
    var cnt, met: set<int> := 0, {};
    for i := 0 to |table|
      invariant list == Default(table[..i], server) && SawIs(saw, list) && cnt == |list|
      invariant forall n :: n in list <==> n in met && (n != 0 || server)
    {
      assert table[..i + 1][..i] == table[..i];
      var n := table[i].num;
      if n in met {
        continue;
      }
      met := met + {n};
      if n == 0 && !server {
        continue;
      }
      cnt := cnt + 1;
      SawMore(saw, list, n);
      list, saw := list + [n], saw[n := cnt];
    }
    assert table[..|table|] == table;
  }

  // ---------- choosing ----------

  /** The first of the list that is also in the other list. */
  function FirstIn(list: seq<int>, other: seq<int>): (n: int)
    ensures n == -1 || (n in list && n in other)
    decreases |list|
  {
    if list == [] then -1 else if list[0] in other then list[0] else FirstIn(list[1..], other)
  }

  /** The numbers of the other side's names, -1 for a name that is not known. */
  function Nums(table: seq<Row>, tokens: seq<string>): (ns: seq<int>)
    ensures |ns| == |tokens| && forall i :: 0 <= i < |ns| ==> ns[i] == Lookup(table, tokens[i])
  {
    seq(|tokens|, i requires 0 <= i < |tokens| => Lookup(table, tokens[i]))
  }

  lemma {:induction false} FirstAt(list: seq<int>, other: seq<int>, k: nat)
    requires k < |list| && list[k] in other && forall i :: 0 <= i < k ==> list[i] !in other
    ensures FirstIn(list, other) == list[k]
    decreases k
  {
    if k > 0 {
      FirstAt(list[1..], other, k - 1);
    }
  }

  lemma {:induction false} NoneIn(list: seq<int>, other: seq<int>)
    requires forall i :: 0 <= i < |list| ==> list[i] !in other
    ensures FirstIn(list, other) == -1
    decreases |list|
  {
    if list != [] {
      NoneIn(list[1..], other);
    }
  }

  lemma {:induction false} OrdinalAt(list: seq<int>, k: nat)
    requires NoRepeats(list) && k < |list|
    ensures Ordinal(list, list[k]) == k + 1
    decreases |list|
  {
    if k < |list| - 1 {
      assert list[..|list| - 1][k] == list[k];
      OrdinalAt(list[..|list| - 1], k);
    }
  }

  /** A choice must have an ordinal below saw_len: the last of a list of saw_len names is never taken. */
  function Capped(list: seq<int>, sawLen: nat): seq<int> {
    if |list| < sawLen || list == [] then list else list[..|list| - 1]
  }

  lemma CappedIs(list: seq<int>, sawLen: nat, n: int)
    requires NoRepeats(list) && |list| <= sawLen && n in list
    ensures n in Capped(list, sawLen) <==> Ordinal(list, n) < sawLen
    ensures n in Capped(list, sawLen) ==> Ordinal(Capped(list, sawLen), n) == Ordinal(list, n)
  {
    var k := Ordinal(list, n) - 1;
    var c := Capped(list, sawLen);
    OrdinalAt(list, k);
    if k < |c| {
      assert c[k] == n;
      OrdinalAt(c, k);
    } else {
      assert forall i :: 0 <= i < |c| ==> c[i] == list[i];
    }
  }

  /** After i names: the best choice so far has the least ordinal below saw_len. */
  ghost predicate Scanned(list: seq<int>, sawLen: nat, ns: seq<int>, i: int, ret: int, best: nat) {
    && 0 <= i <= |ns|
    && (if ret == -1 then best == sawLen else ret in list && ret in ns && best == Ordinal(list, ret) < sawLen)
    && forall k :: 0 <= k < i && ns[k] in list ==> best <= Ordinal(list, ns[k])
  }

  lemma ScanOn(list: seq<int>, sawLen: nat, ns: seq<int>, i: int, ret: int, best: nat)
    requires Scanned(list, sawLen, ns, i, ret, best) && i < |ns| && -1 !in list
    ensures var n := ns[i];
      if n in list && Ordinal(list, n) < best then Scanned(list, sawLen, ns, i + 1, n, Ordinal(list, n))
      else Scanned(list, sawLen, ns, i + 1, ret, best)
  {
    hide Ordinal;
  }

  /** A client has its answer at the end, or when it can do no better. */
  lemma ClientDone(list: seq<int>, sawLen: nat, ns: seq<int>, i: int, ret: int, best: nat)
    requires Scanned(list, sawLen, ns, i, ret, best) && (i == |ns| || (best == 1 && ret != -1))
    requires NoRepeats(list) && -1 !in list && |list| <= sawLen
    ensures ret == FirstIn(Capped(list, sawLen), ns)
  {
    var mine := Capped(list, sawLen);
    InList(list, sawLen);
    forall n | n in mine && n in ns ensures Ordinal(list, n) < sawLen && best <= Ordinal(list, n) == Ordinal(mine, n) {
      CappedIs(list, sawLen, n);
      var k :| 0 <= k < |ns| && ns[k] == n;
    }
    hide Capped, Ordinal;
    if ret == -1 {
      NoneIn(mine, ns);
    } else {
      CappedIs(list, sawLen, ret);
      LeastFirst(mine, ns, ret);
    }
  }

  /** A server's answer is the first name it lists. */
  lemma ServerDone(list: seq<int>, sawLen: nat, ns: seq<int>, i: int)
    requires NoRepeats(list) && |list| <= sawLen && Scanned(list, sawLen, ns, i, -1, sawLen)
    ensures i == |ns| ==> FirstIn(ns, Capped(list, sawLen)) == -1
    ensures i < |ns| && ns[i] in list && Ordinal(list, ns[i]) < sawLen ==> FirstIn(ns, Capped(list, sawLen)) == ns[i]
  {
    var mine := Capped(list, sawLen);
    InList(list, sawLen);
    forall k | 0 <= k < |ns| ensures ns[k] in mine <==> ns[k] in list && Ordinal(list, ns[k]) < sawLen {
      if ns[k] in list {
        CappedIs(list, sawLen, ns[k]);
      }
    }
    hide Capped, Ordinal;
    if i == |ns| {
      NoneIn(ns, mine);
    } else if ns[i] in mine {
      FirstAt(ns, mine, i);
    }
  }

  /** parse_negotiate_str: a server takes the client's first name that it lists, a client goes through all the server's
      names for the one that it lists first itself. */
  method ParseOther(table: seq<Row>, list: seq<int>, saw: map<int, nat>, sawLen: nat, tokens: seq<string>, server: bool)
    returns (ret: int)
    requires NoRepeats(list) && (forall n :: n in list ==> n >= 0) && |list| <= sawLen && SawIs(saw, list)
    ensures var mine := Capped(list, sawLen);
      ret == if server then FirstIn(Nums(table, tokens), mine) else FirstIn(mine, Nums(table, tokens))
  {
    hide Capped, Ordinal, FirstIn, Scanned, NoRepeats;
    ghost var ns := Nums(table, tokens);
    ret := -1;
    var best, i := sawLen, 0;
    assert Scanned(list, sawLen, ns, 0, -1, sawLen) by {
      ScanStart(list, sawLen, ns);
    }
    while i < |tokens|
      invariant 0 <= i <= |tokens| && Scanned(list, sawLen, ns, i, ret, best)
      invariant server ==> ret == -1 && best == sawLen
      invariant ret == -1 ==> best == sawLen
    {
      var n := Lookup(table, tokens[i]);
      ScanOn(list, sawLen, ns, i, ret, best);
      if n < 0 || n !in saw || best <= saw[n] {
        i := i + 1;
        continue;
      }
      if server {
        ServerDone(list, sawLen, ns, i);
        return n;
      }
      i := i + 1;
      ret, best := n, saw[n];
      if best == 1 {
        break;
      }
    }
    if server {
      ServerDone(list, sawLen, ns, i);
    } else {
      ClientDone(list, sawLen, ns, i, ret, best);
    }
  }

  lemma ScanStart(list: seq<int>, sawLen: nat, ns: seq<int>)
    ensures Scanned(list, sawLen, ns, 0, -1, sawLen)
  {
  }

  lemma InList(list: seq<int>, sawLen: nat)
    requires NoRepeats(list)
    ensures NoRepeats(Capped(list, sawLen)) && forall n :: n in Capped(list, sawLen) ==> n in list
  {
  }

  /** The member of the other list with the least ordinal comes first. */
  lemma LeastFirst(list: seq<int>, ns: seq<int>, n: int)
    requires NoRepeats(list) && n in list && n in ns
    requires forall m :: m in ns && m in list ==> Ordinal(list, n) <= Ordinal(list, m)
    ensures FirstIn(list, ns) == n
  {
    var k := Ordinal(list, n) - 1;
    forall i | 0 <= i < k ensures list[i] !in ns {
      OrdinalAt(list, i);
    }
    FirstAt(list, ns, k);
  }

  // ---------- the agreement ----------

  /** The names that one side sends mean the same to the other, as far as it lists them. */
  ghost predicate Understood(from: seq<Row>, list: seq<int>, to: seq<Row>, other: seq<int>) {
    forall n :: n in list ==>
      var m := Lookup(to, MainName(from, n)); (m == n || m !in other) && (n in other ==> m == n)
  }

  lemma {:induction false} FirstThrough(list: seq<int>, ns: seq<int>, other: seq<int>)
    requires |ns| == |list| && forall i :: 0 <= i < |list| ==> ns[i] == list[i] || ns[i] !in other
    requires forall i :: 0 <= i < |list| && list[i] in other ==> ns[i] == list[i]
    ensures FirstIn(ns, other) == FirstIn(list, other)
    decreases |list|
  {
    if list != [] {
      FirstThrough(list[1..], ns[1..], other);
    }
  }

  lemma {:induction false} FirstSame(list: seq<int>, a: seq<int>, b: seq<int>)
    requires forall n :: n in list ==> (n in a <==> n in b)
    ensures FirstIn(list, a) == FirstIn(list, b)
    decreases |list|
  {
    if list != [] {
      FirstSame(list[1..], a, b);
    }
  }

  /** Each side hears the other's list as if it were its own numbers: what its rule picks is a matter of the two lists. */
  lemma HeardAlike(client: seq<Row>, mine: seq<int>, asked: bool, server: seq<Row>, theirs: seq<int>, asking: bool,
                   clientLen: nat, serverLen: nat)
    requires Understood(client, mine, server, theirs) && Understood(server, theirs, client, mine)
    requires Lookup(client, INVALID) !in mine && Lookup(server, INVALID) !in theirs
    requires NoRepeats(mine) && NoRepeats(theirs)
    ensures FirstIn(Capped(mine, clientLen), Nums(client, Sent(server, theirs, asking))) == FirstIn(Capped(mine, clientLen), theirs)
    ensures FirstIn(Nums(server, Sent(client, mine, asked)), Capped(theirs, serverLen)) == FirstIn(mine, Capped(theirs, serverLen))
  {
    InList(mine, clientLen);
    InList(theirs, serverLen);
    hide Lookup, MainName, Capped;
    var heard := Nums(client, Sent(server, theirs, asking));
    forall n | n in mine ensures n in heard <==> n in theirs {
      if n in theirs {
        var i :| 0 <= i < |theirs| && theirs[i] == n;
        assert heard[i] == n;
      }
      if n in heard {
        var i :| 0 <= i < |heard| && heard[i] == n;
        assert theirs != [] && theirs[i] in theirs;
      }
    }
    FirstSame(Capped(mine, clientLen), heard, theirs);
    var ns := Nums(server, Sent(client, mine, asked));
    if mine == [] {
      NoneIn(ns, Capped(theirs, serverLen));
    } else {
      FirstThrough(mine, ns, Capped(theirs, serverLen));
    }
  }

  /** With a full list the client misses the choice exactly when it is the last of that list. */
  lemma ClientMisses(mine: seq<int>, theirs: seq<int>, sawLen: nat)
    requires NoRepeats(mine) && mine != [] && -1 !in mine
    ensures FirstIn(Capped(mine, sawLen), theirs) == FirstIn(mine, theirs) <==>
            |mine| < sawLen || FirstIn(mine, theirs) != mine[|mine| - 1]
  {
    FirstOfPrefix(mine, theirs);
  }

  /** And so does the server with its own. */
  lemma ServerMisses(mine: seq<int>, theirs: seq<int>, sawLen: nat)
    requires NoRepeats(theirs) && theirs != [] && -1 !in theirs
    ensures FirstIn(mine, Capped(theirs, sawLen)) == FirstIn(mine, theirs) <==>
            |theirs| < sawLen || FirstIn(mine, theirs) != theirs[|theirs| - 1]
  {
    hide FirstIn;
    var last := theirs[|theirs| - 1];
    if FirstIn(mine, theirs) != last {
      FirstShort(mine, theirs[..|theirs| - 1], theirs);
    } else {
      assert last !in theirs[..|theirs| - 1];
    }
  }

  /** Without the last name the first choice is the same, unless it was the last name. */
  lemma {:induction false} FirstOfPrefix(list: seq<int>, other: seq<int>)
    requires NoRepeats(list) && list != [] && -1 !in list
    ensures FirstIn(list[..|list| - 1], other) == FirstIn(list, other) <==> FirstIn(list, other) != list[|list| - 1]
    decreases |list|
  {
    if |list| > 1 && list[0] !in other {
      FirstOfPrefix(list[1..], other);
      assert list[..|list| - 1][1..] == list[1..][..|list| - 2];
    }
  }

  lemma {:induction false} FirstShort(list: seq<int>, short: seq<int>, other: seq<int>)
    requires other != [] && short == other[..|other| - 1] && FirstIn(list, other) != other[|other| - 1]
    ensures FirstIn(list, short) == FirstIn(list, other)
    decreases |list|
  {
    if list != [] {
      assert other == short + [other[|other| - 1]];
      if list[0] !in other {
        FirstShort(list[1..], short, other);
      }
    }
  }

  // ---------- two builds of one table ----------

  ghost predicate NamesDiffer(table: seq<Row>) {
    forall i, j :: 0 <= i < j < |table| ==> table[i].name != table[j].name
  }

  /** The rows of the algorithms that a build supports. */
  function Build(common: seq<Row>, available: set<int>): seq<Row> {
    if common == [] then []
    else (if common[0].num in available then [common[0]] else []) + Build(common[1..], available)
  }

  lemma BuildHead(common: seq<Row>, available: set<int>)
    requires common != []
    ensures var t := Build(common, available);
      if common[0].num in available then t != [] && t[0] == common[0] && t[1..] == Build(common[1..], available)
      else t == Build(common[1..], available)
  {
  }

  lemma {:induction false} LookupBuild(common: seq<Row>, available: set<int>, name: string)
    requires NamesDiffer(common)
    ensures Lookup(Build(common, available), name) == if Lookup(common, name) in available then Lookup(common, name) else -1
    decreases |common|
  {
    if common != [] {
      assert NamesDiffer(common[1..]);
      LookupBuild(common[1..], available, name);
      BuildHead(common, available);
      if common[0].name == name && common[0].num !in available {
        NotLater(common, name);
      }
    }
  }

  lemma NotLater(common: seq<Row>, name: string)
    requires NamesDiffer(common) && common != [] && common[0].name == name
    ensures Lookup(common[1..], name) == -1
  {
    Unknown(common[1..], name);
  }

  lemma {:induction false} Unknown(table: seq<Row>, name: string)
    requires forall i :: 0 <= i < |table| ==> table[i].name != name
    ensures Lookup(table, name) == -1
    decreases |table|
  {
    if table != [] {
      Unknown(table[1..], name);
    }
  }

  lemma {:induction false} MainBuild(common: seq<Row>, available: set<int>, n: int)
    requires n in available
    ensures MainName(Build(common, available), n) == MainName(common, n)
    decreases |common|
  {
    if common != [] {
      MainBuild(common[1..], available, n);
      BuildHead(common, available);
    }
  }

  lemma {:induction false} MainKnown(common: seq<Row>, n: int)
    requires NamesDiffer(common) && Numbered(common, n)
    ensures Lookup(common, MainName(common, n)) == n
    decreases |common|
  {
    if common[0].num != n {
      var r :| r in common && r.num == n;
      assert r in common[1..];
      assert NamesDiffer(common[1..]);
      MainKnown(common[1..], n);
      MainLater(common[1..], n, common[0].name);
    }
  }

  lemma {:induction false} MainLater(table: seq<Row>, n: int, name: string)
    requires Numbered(table, n) && forall i :: 0 <= i < |table| ==> table[i].name != name
    ensures MainName(table, n) != name
    decreases |table|
  {
    if table[0].num != n {
      var r :| r in table && r.num == n;
      assert r in table[1..];
      MainLater(table[1..], n, name);
    }
  }

  /** Whatever a build lists, another build of the same table understands. */
  lemma BuildsUnderstand(common: seq<Row>, mine: set<int>, theirs: set<int>, list: seq<int>, other: seq<int>)
    requires NamesDiffer(common) && (forall n :: n in list ==> n in mine && Numbered(common, n))
    requires forall n :: n in other ==> n in theirs && n >= 0
    ensures Understood(Build(common, mine), list, Build(common, theirs), other)
  {
    hide Lookup, MainName, Build;
    forall n | n in list
      ensures var m := Lookup(Build(common, theirs), MainName(Build(common, mine), n));
        (m == n || m !in other) && (n in other ==> m == n)
    {
      MainBuild(common, mine, n);
      MainKnown(common, n);
      LookupBuild(common, theirs, MainName(common, n));
    }
  }

  lemma {:induction false} OwnListed(common: seq<Row>, available: set<int>, tokens: seq<string>)
    requires NamesDiffer(common)
    ensures forall n :: n in Own(Build(common, available), tokens) ==> n in available && Numbered(common, n)
  {
    hide Build;
    if tokens != [] {
      OwnListed(common, available, tokens[..|tokens| - 1]);
      var name := tokens[|tokens| - 1];
      LookupBuild(common, available, name);
      LookupNumbered(common, name);
    }
  }

  lemma {:induction false} LookupNumbered(table: seq<Row>, name: string)
    ensures Lookup(table, name) >= 0 ==> Numbered(table, Lookup(table, name))
    decreases |table|
  {
    if table != [] {
      LookupNumbered(table[1..], name);
      if table[0].name == name {
        assert table[0] in table;
      } else if Lookup(table[1..], name) >= 0 {
        var r :| r in table[1..] && r.num == Lookup(table[1..], name);
        assert r in table;
      }
    }
  }

  /** Different numbers below n are no more than n. */
  lemma {:induction false} Pigeons(list: seq<int>, n: nat)
    requires NoRepeats(list) && forall x :: x in list ==> 0 <= x < n
    ensures |list| <= n
    decreases n
  {
    if list != [] {
      assert list[0] in list;
      if n - 1 in list {
        var k :| 0 <= k < |list| && list[k] == n - 1;
        var rest := list[..k] + list[k + 1..];
        assert forall i :: 0 <= i < |rest| ==> rest[i] == list[if i < k then i else i + 1];
        forall x | x in rest ensures 0 <= x < n - 1 {
          var i :| 0 <= i < |rest| && rest[i] == x;
          assert list[if i < k then i else i + 1] in list;
        }
        Pigeons(rest, n - 1);
      } else {
        Pigeons(list, n - 1);
      }
    }
  }

  lemma {:induction false} LookupSmall(table: seq<Row>, name: string)
    ensures -1 <= Lookup(table, name) && (SawLen(table) == 0 ==> Lookup(table, name) == -1)
    ensures Lookup(table, name) < SawLen(table)
    decreases |table|
  {
    if table != [] {
      LookupSmall(table[1..], name);
    }
  }

  lemma {:induction false} OwnFits(table: seq<Row>, tokens: seq<string>)
    ensures forall n :: n in Own(table, tokens) ==> 0 <= n < SawLen(table)
  {
    if tokens != [] {
      OwnFits(table, tokens[..|tokens| - 1]);
      LookupSmall(table, tokens[|tokens| - 1]);
    }
  }

  /** What a side starts from: the words of the user's list, or nothing. */
  datatype Offer = Words(words: seq<string>) | Stock

  predicate Asked(offer: Offer) {
    offer.Words? && offer.words != []
  }

  /** send_negotiate_str: the user's list if it has any word, else the default list. */
  function Listed(table: seq<Row>, offer: Offer, server: bool): seq<int> {
    if Asked(offer) then Own(table, offer.words) else Default(table, server)
  }

  lemma ListedIs(common: seq<Row>, available: set<int>, offer: Offer, server: bool)
    requires NamesDiffer(common)
    ensures var list := Listed(Build(common, available), offer, server);
      && NoRepeats(list) && |list| <= SawLen(Build(common, available))
      && forall n :: n in list ==> n >= 0 && n in available && Numbered(common, n)
  {
    var table := Build(common, available);
    hide Own, Default, Numbered;
    if Asked(offer) {
      OwnListed(common, available, offer.words);
      OwnNoRepeats(table, offer.words);
      OwnFits(table, offer.words);
      Pigeons(Own(table, offer.words), SawLen(table));
    } else {
      DefaultIs(table, server);
      forall n | n in Default(table, server) ensures 0 <= n < SawLen(table) && n in available && Numbered(common, n) {
        NumberedBuild(common, available, n);
        NumberedSmall(table, n);
      }
      Pigeons(Default(table, server), SawLen(table));
    }
  }

  lemma NumberedSmall(table: seq<Row>, n: int)
    requires Numbered(table, n)
    ensures 0 <= n < SawLen(table)
  {
  }

  lemma {:induction false} NumberedBuild(common: seq<Row>, available: set<int>, n: int)
    requires Numbered(Build(common, available), n)
    ensures n in available && Numbered(common, n)
    decreases |common|
  {
    if common != [] {
      BuildHead(common, available);
      var r :| r in Build(common, available) && r.num == n;
      if common[0].num in available && r == common[0] {
        assert common[0] in common;
      } else {
        assert r in Build(common[1..], available) by {
          if common[0].num in available {
            assert r in [common[0]] + Build(common, available)[1..];
          }
        }
        NumberedBuild(common[1..], available, n);
        var q :| q in common[1..] && q.num == n;
        assert q in common;
      }
    }
  }

  /** One side: its own list, then the other side's. */
  method OneSide(table: seq<Row>, offer: Offer, heard: seq<string>, server: bool) returns (n: int)
    requires var list := Listed(table, offer, server); NoRepeats(list) && |list| <= SawLen(table) && forall k :: k in list ==> k >= 0
    ensures var mine := Capped(Listed(table, offer, server), SawLen(table));
      n == if server then FirstIn(Nums(table, heard), mine) else FirstIn(mine, Nums(table, heard))
  {
    hide Own, Default, SawLen, FirstIn, Nums, Capped, Ordinal, SawIs;
    var list, saw;
    if Asked(offer) {
      list, saw := ParseOwn(table, offer.words);
    } else {
      list, saw := DefaultList(table, server);
    }
    n := ParseOther(table, list, saw, SawLen(table), heard, server);
  }

  /** The best common choice is the last name of a list that names every number there is. */
  predicate Misses(list: seq<int>, sawLen: nat, first: int) {
    |list| >= sawLen && list != [] && first == list[|list| - 1]
  }

  /** When both sides pick the same, as a matter of their lists. */
  lemma WhenAgree(c: seq<int>, s: seq<int>, clientLen: nat, serverLen: nat)
    requires NoRepeats(c) && NoRepeats(s) && -1 !in c && -1 !in s
    ensures var first := FirstIn(c, s);
      var client, server := FirstIn(Capped(c, clientLen), s), FirstIn(c, Capped(s, serverLen));
      && (client == first <==> !Misses(c, clientLen, first))
      && (server == first <==> !Misses(s, serverLen, first))
      && (client == server <==> (Misses(c, clientLen, first) <==> Misses(s, serverLen, first)))
  {
    var first := FirstIn(c, s);
    if c != [] {
      ClientMisses(c, s, clientLen);
    }
    if s != [] {
      ServerMisses(c, s, serverLen);
    } else {
      assert Capped(s, serverLen) == s;
    }
    if Misses(c, clientLen, first) {
      CutLast(c, s);
      if Misses(s, serverLen, first) {
        OnlyLast(c, s, Capped(s, serverLen));
      }
    }
  }

  /** Without its last name, a list whose first choice was the last name has no choice. */
  lemma CutLast(c: seq<int>, s: seq<int>)
    requires NoRepeats(c) && c != [] && -1 !in c && FirstIn(c, s) == c[|c| - 1]
    ensures FirstIn(c[..|c| - 1], s) == -1
  {
    BeforeFirst(c, s);
    NoneIn(c[..|c| - 1], s);
  }

  /** Nothing before the first choice is in the other list. */
  lemma {:induction false} BeforeFirst(c: seq<int>, s: seq<int>)
    requires NoRepeats(c) && c != [] && FirstIn(c, s) == c[|c| - 1]
    ensures forall i :: 0 <= i < |c| - 1 ==> c[i] !in s
    decreases |c|
  {
    if |c| > 1 {
      assert c[0] !in s;
      assert c[1..][|c| - 2] == c[|c| - 1];
      BeforeFirst(c[1..], s);
      forall i | 0 < i < |c| - 1 ensures c[i] !in s {
        assert c[i] == c[1..][i - 1];
      }
    }
  }

  lemma OnlyLast(c: seq<int>, s: seq<int>, short: seq<int>)
    requires NoRepeats(c) && c != [] && FirstIn(c, s) == c[|c| - 1] && c[|c| - 1] !in short
    requires forall n :: n in short ==> n in s
    ensures FirstIn(c, short) == -1
  {
    BeforeFirst(c, s);
    NoneIn(c, short);
  }

  /** Two builds of one table, each with the user's list or the default: each picks the first algorithm of the client's list
      that the server lists too, unless that is the last name of a full list of its own; so they agree exactly when both
      or neither miss it. */
  method Negotiation(common: seq<Row>, mine: set<int>, offer: Offer, theirs: set<int>, others: Offer)
    returns (client: int, server: int)
    requires NamesDiffer(common) && Lookup(common, INVALID) == -1
    ensures var ct, st := Build(common, mine), Build(common, theirs);
      var c, s := Listed(ct, offer, false), Listed(st, others, true);
      var first := FirstIn(c, s);
      && (client == first <==> !Misses(c, SawLen(ct), first))
      && (server == first <==> !Misses(s, SawLen(st), first))
      && (client == server <==> (Misses(c, SawLen(ct), first) <==> Misses(s, SawLen(st), first)))
  {
    var ct, st := Build(common, mine), Build(common, theirs);
    hide Build, Own, Default, Listed, SawLen, FirstIn, Nums, Sent, NamesDiffer, Understood, Lookup, Capped, Misses, Numbered;
    ListedIs(common, mine, offer, false);
    ListedIs(common, theirs, others, true);
    var c, s := Listed(ct, offer, false), Listed(st, others, true);
    BuildsUnderstand(common, mine, theirs, c, s);
    BuildsUnderstand(common, theirs, mine, s, c);
    LookupBuild(common, mine, INVALID);
    LookupBuild(common, theirs, INVALID);
    HeardAlike(ct, c, Asked(offer), st, s, Asked(others), SawLen(ct), SawLen(st));
    WhenAgree(c, s, SawLen(ct), SawLen(st));
    client := OneSide(ct, offer, Sent(st, s, Asked(others)), false);
    server := OneSide(st, others, Sent(ct, c, Asked(offer)), true);
  }

  /** valid_compressions_items of a full build, compat.c:102-113. */
  function Compressions(): seq<Row> {
    [Row("zstd", 4), Row("lz4", 3), Row("zlibx", 2), Row("zlib", 1), Row("none", 0)]
  }

  function NoneThenZstd(): seq<string> {
    ["none", "zstd"]
  }

  const ALL_OF_THEM: set<int> := {0, 1, 2, 3, 4}

  lemma {:induction false} LookupAt(table: seq<Row>, k: nat)
    requires NamesDiffer(table) && k < |table|
    ensures Lookup(table, table[k].name) == table[k].num
    decreases |table|
  {
    if k > 0 {
      assert table[1..][k - 1] == table[k];
      LookupAt(table[1..], k - 1);
    }
  }

  lemma {:induction false} WholeBuild(common: seq<Row>, available: set<int>)
    requires forall r :: r in common ==> r.num in available
    ensures Build(common, available) == common
    decreases |common|
  {
    if common != [] {
      assert common[0] in common && common == [common[0]] + common[1..];
      WholeBuild(common[1..], available);
    }
  }

  lemma CompressionNames()
    ensures NamesDiffer(Compressions()) && Build(Compressions(), ALL_OF_THEM) == Compressions()
    ensures Lookup(Compressions(), INVALID) == -1
  {
    var t := Compressions();
    assert t[0].name[0] == 'z' && t[0].name[1] == 's' && t[1].name[0] == 'l' && t[2].name[0] == 'z' && t[2].name[1] == 'l';
    assert t[3].name[0] == 'z' && t[3].name[1] == 'l' && t[4].name[0] == 'n' && |t[2].name| == 5 && |t[3].name| == 4;
    assert INVALID[0] == 'I';
    hide Lookup, Build;
    WholeBuild(t, ALL_OF_THEM);
    Unknown(t, INVALID);
  }

  lemma CompressionRows()
    ensures var t := Compressions(); |t| == 5 && forall i :: 0 <= i < 5 ==> t[i].num == 4 - i
    ensures NoneThenZstd() == [Compressions()[4].name, Compressions()[0].name]
  {
  }

  lemma OwnSnoc(table: seq<Row>, before: seq<string>, word: string)
    ensures var list, n := Own(table, before), Lookup(table, word);
      Own(table, before + [word]) == if n < 0 || n in list then list else list + [n]
  {
    assert (before + [word])[..|before|] == before;
  }

  lemma DefaultSnoc(before: seq<Row>, r: Row)
    ensures var list := Default(before, true);
      Default(before + [r], true) == if r.num in list then list else list + [r.num]
  {
    assert (before + [r])[..|before|] == before;
  }

  lemma TwoWords(t: seq<Row>, a: string, b: string)
    requires Lookup(t, a) >= 0 && Lookup(t, b) >= 0 && Lookup(t, a) != Lookup(t, b)
    ensures Own(t, [a, b]) == [Lookup(t, a), Lookup(t, b)]
  {
    assert Own(t, []) == [];
    hide Lookup, Own;
    OwnSnoc(t, [], a);
    OwnSnoc(t, [a], b);
    assert [] + [a] == [a] && [a] + [b] == [a, b];
  }

  lemma ClientWords()
    ensures Own(Compressions(), NoneThenZstd()) == [0, 4]
  {
    CompressionRows();
    CompressionNames();
    hide Lookup, Own, Compressions, NoneThenZstd, Build, NamesDiffer;
    var t := Compressions();
    LookupAt(t, 4);
    LookupAt(t, 0);
    TwoWords(t, t[4].name, t[0].name);
  }

  lemma {:induction false} DefaultDown(t: seq<Row>, i: nat)
    requires |t| == 5 && i <= 5 && forall k :: 0 <= k < 5 ==> t[k].num == 4 - k
    ensures |Default(t[..i], true)| == i && forall k :: 0 <= k < i ==> Default(t[..i], true)[k] == 4 - k
  {
    if i > 0 {
      DefaultDown(t, i - 1);
      hide Default;
      DefaultSnoc(t[..i - 1], t[i - 1]);
      assert t[..i - 1] + [t[i - 1]] == t[..i];
    } else {
      assert t[..0] == [];
    }
  }

  lemma ServerDefault()
    ensures Default(Compressions(), true) == [4, 3, 2, 1, 0]
  {
    CompressionRows();
    hide Compressions, Default;
    var t := Compressions();
    DefaultDown(t, 5);
    assert t[..5] == t;
  }

  lemma {:induction false} SawLenDown(t: seq<Row>, i: nat)
    requires |t| == 5 && i <= 5 && forall k :: 0 <= k < 5 ==> t[k].num == 4 - k
    ensures SawLen(t[i..]) == 5 - i
    decreases 5 - i
  {
    if i < 5 {
      SawLenDown(t, i + 1);
      assert t[i..][1..] == t[i + 1..];
    }
  }

  /** A full build's default list on a server is full: with a client that asks for "none zstd" the client takes none and the
      server zstd. */
  lemma DisagreeExample()
    ensures var t := Build(Compressions(), ALL_OF_THEM);
      var c, s := Listed(t, Words(NoneThenZstd()), false), Listed(t, Stock, true);
      && NamesDiffer(Compressions()) && Lookup(Compressions(), INVALID) == -1
      && c == [0, 4] && s == [4, 3, 2, 1, 0] && SawLen(t) == 5 && FirstIn(c, s) == 0
      && FirstIn(Capped(c, 5), s) == 0 && FirstIn(c, Capped(s, 5)) == 4
      && Misses(s, SawLen(t), 0) && !Misses(c, SawLen(t), 0)
  {
    CompressionRows();
    CompressionNames();
    hide Own, Default, SawLen, Lookup, Build, FirstIn, Capped, Misses, NamesDiffer, Compressions, NoneThenZstd;
    ClientWords();
    ServerDefault();
    SawLenDown(Compressions(), 0);
    assert Compressions()[0..] == Compressions();
    NumbersDisagree();
  }

  lemma NumbersDisagree()
    ensures var c, s := [0, 4], [4, 3, 2, 1, 0];
      && FirstIn(c, s) == 0 && FirstIn(Capped(c, 5), s) == 0 && FirstIn(c, Capped(s, 5)) == 4
      && Misses(s, 5, 0) && !Misses(c, 5, 0)
  {
    var c, s := [0, 4], [4, 3, 2, 1, 0];
    assert s[..4] == [4, 3, 2, 1];
    FirstAt(c, s, 0);
    FirstAt(c, [4, 3, 2, 1], 1);
  }
}
