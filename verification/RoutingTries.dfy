/** The routing table: a binary trie over address bits, against a plain scan of the list
    of routes (section 5.2.4.3 of RFC 1812, longest match). */
module RoutingTries {
  import opened FixedWidth

  datatype RawRoute = RouteEntry(prefix: u32, length: nat, nextHop: Option<u32>, interface: nat)

  type Route = r: RawRoute | r.length <= 32 witness RouteEntry(0, 0, None, 0)

  function ShiftRight(x: nat, n: nat): nat { Div(x, Pow2(n)) }

  /** Bit `k` of an address, counted from the most significant one. */
  function Bit(x: u32, k: nat): bool
    requires k < 32
  {
    ShiftRight(x, 31 - k) % 2 == 1
  }

  function Bits(x: u32, n: nat): seq<bool>
    requires n <= 32
  {
    seq(n, k requires 0 <= k < n => Bit(x, k))
  }

  function Path(r: Route): seq<bool> { Bits(r.prefix, r.length) }

  // ---------- The reference: a scan of the list ----------

  /** The leading `length` bits agree; the bits after them do not matter. */
  predicate Matches(r: Route, dst: u32) {
    ShiftRight(r.prefix, 32 - r.length) == ShiftRight(dst, 32 - r.length)
  }

  /** Keeps the longest match so far; a later route replaces one of equal length. */
  function Scan(routes: seq<Route>, dst: u32): Option<Route> {
    if routes == [] then None
    else
      var best, r := Scan(routes[..|routes| - 1], dst), routes[|routes| - 1];
      if Matches(r, dst) && (best.None? || r.length >= best.value.length) then Some(r) else best
  }

  /** Route `i` matches; a matching route is shorter, or as long and not later. */
  ghost predicate BestAt(routes: seq<Route>, dst: u32, i: nat) {
    && i < |routes| && Matches(routes[i], dst)
    && forall j :: 0 <= j < |routes| && Matches(routes[j], dst) ==>
         routes[j].length < routes[i].length || (routes[j].length == routes[i].length && j <= i)
  }

  lemma {:induction false} ScanFindsBest(routes: seq<Route>, dst: u32)
    ensures match Scan(routes, dst)
            case None => forall j :: 0 <= j < |routes| ==> !Matches(routes[j], dst)
            case Some(r) => exists i: nat :: i < |routes| && BestAt(routes, dst, i) && routes[i] == r
  {
    if routes != [] {
      var init, r := routes[..|routes| - 1], routes[|routes| - 1];
      ScanFindsBest(init, dst);
      hide Matches, BestAt;
      if Scan(init, dst).None? {
        OnlyMatch(routes, dst);
      } else {
        var i: nat :| i < |init| && BestAt(init, dst, i) && init[i] == Scan(init, dst).value;
        BestStep(routes, dst, i);
      }
    }
  }

  lemma OnlyMatch(routes: seq<Route>, dst: u32)
    requires routes != [] && forall j :: 0 <= j < |routes| - 1 ==> !Matches(routes[j], dst)
    ensures Matches(routes[|routes| - 1], dst) ==> BestAt(routes, dst, |routes| - 1)
  {
  }

  lemma BestStep(routes: seq<Route>, dst: u32, i: nat)
    requires routes != [] && BestAt(routes[..|routes| - 1], dst, i)
    ensures var last := |routes| - 1;
            var better := Matches(routes[last], dst) && routes[last].length >= routes[i].length;
            BestAt(routes, dst, if better then last else i)
  {
    hide Matches;
    var init := routes[..|routes| - 1];
    assert forall j :: 0 <= j < |init| ==> init[j] == routes[j];
  }

  // ---------- The table of bit strings ----------

  type Table = map<seq<bool>, Route>

  /** The route at the longest prefix of `bits[..n]` that has one. */
  function LongestMatch(table: Table, bits: seq<bool>, n: nat): Option<Route>
    requires n <= |bits|
  {
    if bits[..n] in table then Some(table[bits[..n]])
    else if n == 0 then None else LongestMatch(table, bits, n - 1)
  }

  function TableOf(routes: seq<Route>): Table {
    if routes == [] then map[]
    else TableOf(routes[..|routes| - 1])[Path(routes[|routes| - 1]) := routes[|routes| - 1]]
  }

  lemma TableOfAppend(routes: seq<Route>, r: Route)
    ensures TableOf(routes + [r]) == TableOf(routes)[Path(r) := r]
  {
    assert (routes + [r])[..|routes + [r]| - 1] == routes;
  }

  /** Every route is stored under its own prefix. */
  ghost predicate WellPlaced(table: Table) {
    forall p :: p in table ==> Path(table[p]) == p
  }

  lemma {:induction false} TableIsWellPlaced(routes: seq<Route>)
    ensures WellPlaced(TableOf(routes))
  {
    if routes != [] { TableIsWellPlaced(routes[..|routes| - 1]); }
  }

  lemma {:induction false} MatchedLength(table: Table, bits: seq<bool>, n: nat)
    requires n <= |bits| && WellPlaced(table)
    ensures var m := LongestMatch(table, bits, n);
            && (m.Some? ==> m.value.length <= n && bits[..m.value.length] in table)
            && (m.Some? ==> table[bits[..m.value.length]] == m.value)
            && (forall k: nat :: k <= n && bits[..k] in table ==> m.Some? && k <= m.value.length)
  {
    if bits[..n] in table {
      assert |Path(table[bits[..n]])| == n;
    } else if n > 0 {
      MatchedLength(table, bits, n - 1);
    }
  }

  /** Inserting a route changes a lookup exactly as one more step of the scan does. */
  lemma InsertIsScanStep(table: Table, bits: seq<bool>, r: Route)
    requires |bits| == 32 && WellPlaced(table)
    ensures var best := LongestMatch(table, bits, 32);
            LongestMatch(table[Path(r) := r], bits, 32)
            == if Path(r) == bits[..r.length] && (best.None? || r.length >= best.value.length) then Some(r) else best
  {
    var table' := table[Path(r) := r];
    MatchedLength(table, bits, 32);
    MatchedLength(table', bits, 32);
    var best, best' := LongestMatch(table, bits, 32), LongestMatch(table', bits, 32);
    assert best.Some? ==> bits[..best.value.length] in table';
    if best'.Some? {
      var k := best'.value.length;
      assert bits[..k] in table || bits[..k] == Path(r);
    }
  }

  // ---------- Bits and division ----------

  lemma HalvePow(x: nat, n: nat)
    ensures ShiftRight(x, n + 1) == ShiftRight(x, n) / 2
  {
    DivideTwice(x, Pow2(n), 2);
  }

  lemma SameHalves(a: nat, b: nat)
    ensures a == b <==> a / 2 == b / 2 && (a % 2 == 1) == (b % 2 == 1)
  {
  }

  lemma BitsStep(x: u32, n: nat)
    requires 0 < n <= 32
    ensures Bits(x, n) == Bits(x, n - 1) + [ShiftRight(x, 32 - n) % 2 == 1]
  {
  }

  lemma AppendSame(p: seq<bool>, q: seq<bool>, b: bool, c: bool)
    ensures p + [b] == q + [c] <==> p == q && b == c
  {
    assert (p + [b])[..|p + [b]| - 1] == p && (q + [c])[..|q + [c]| - 1] == q;
    assert (p + [b])[|p + [b]| - 1] == b && (q + [c])[|q + [c]| - 1] == c;
  }

  /** Agreeing on the leading bits is agreeing after the shift. */
  lemma {:induction false} SameBits(x: u32, y: u32, n: nat)
    requires n <= 32
    ensures Bits(x, n) == Bits(y, n) <==> ShiftRight(x, 32 - n) == ShiftRight(y, 32 - n)
  {
    if n == 0 {
      WholeSpace();
    } else {
      hide Bits, ShiftRight;
      SameBits(x, y, n - 1);
      HalvePow(x, 32 - n);
      HalvePow(y, 32 - n);
      BitsStep(x, n);
      BitsStep(y, n);
      AppendSame(Bits(x, n - 1), Bits(y, n - 1), ShiftRight(x, 32 - n) % 2 == 1, ShiftRight(y, 32 - n) % 2 == 1);
      SameHalves(ShiftRight(x, 32 - n), ShiftRight(y, 32 - n));
    }
  }

  lemma WholeSpace()
    ensures Pow2(32) == TWO_32
  {
    assert Pow2(4) == 16;
    assert Pow2(8) == 256;
    assert Pow2(12) == 4096;
    assert Pow2(16) == TWO_16;
    assert Pow2(20) == 0x10_0000;
    assert Pow2(24) == 0x100_0000;
    assert Pow2(28) == 0x1000_0000;
  }

  /** The main result: a lookup in the table built by any sequence of insertions returns
      exactly what the scan of that sequence returns. */
  lemma {:induction false} LookupEqualsScan(routes: seq<Route>, dst: u32)
    ensures LongestMatch(TableOf(routes), Bits(dst, 32), 32) == Scan(routes, dst)
  {
    if routes == [] {
      MatchedLength(map[], Bits(dst, 32), 32);
    } else {
      var init, r := routes[..|routes| - 1], routes[|routes| - 1];
      LookupEqualsScan(init, dst);
      TableIsWellPlaced(init);
      InsertIsScanStep(TableOf(init), Bits(dst, 32), r);
      SameBits(r.prefix, dst, r.length);
      assert Bits(dst, 32)[..r.length] == Bits(dst, r.length);
      assert TableOf(routes) == TableOf(init)[Path(r) := r];
    }
  }

  // ---------- The trie on the heap ----------

  /** A child that does not exist is absent from `children`. */
  class TrieNode {
    var children: map<bool, TrieNode>
    var route: Option<Route>

    constructor ()
      ensures children == map[] && route == None
    {
      children, route := map[], None;
    }
  }

  ghost predicate PrefixClosed(nodes: map<seq<bool>, TrieNode>) {
    forall p, dir {:trigger p + [dir]} :: p + [dir] in nodes ==> p in nodes
  }

  ghost predicate Injective(nodes: map<seq<bool>, TrieNode>) {
    forall p, q :: p in nodes && q in nodes && nodes[p] == nodes[q] ==> p == q
  }

  lemma OtherNodes(nodes: map<seq<bool>, TrieNode>, path: seq<bool>)
    requires Injective(nodes) && path in nodes
    ensures forall p :: p in nodes && p != path ==> nodes[p] != nodes[path]
  {
  }

  lemma InjectiveAfterAdd(nodes: map<seq<bool>, TrieNode>, path: seq<bool>, child: TrieNode)
    requires Injective(nodes) && forall p :: p in nodes ==> nodes[p] != child
    ensures Injective(nodes[path := child])
  {
  }

  ghost function Kids(nodes: map<seq<bool>, TrieNode>, p: seq<bool>): map<bool, TrieNode> {
    map dir: bool | p + [dir] in nodes :: nodes[p + [dir]]
  }

  lemma ParentExists(nodes: map<seq<bool>, TrieNode>, p: seq<bool>, dir: bool)
    requires PrefixClosed(nodes) && p + [dir] in nodes
    ensures p in nodes
  {
  }

  lemma EmptyTable()
    ensures TableOf([]) == map[]
  {
  }

  lemma RootAlone(root: TrieNode)
    ensures var nodes: map<seq<bool>, TrieNode> := map[[] := root];
            Kids(nodes, []) == map[] && PrefixClosed(nodes) && Injective(nodes)
  {
  }

  class RoutingTrie {
    const root: TrieNode
    ghost var nodes: map<seq<bool>, TrieNode>  // every node under the bits that lead to it
    ghost var Contents: Table
    ghost var Inserted: seq<Route>  // every insertion, oldest first
    ghost var Repr: set<TrieNode>

    /** The nodes form a tree. */
    ghost predicate Linked()
      reads this, Repr
    {
      && (forall p :: p in nodes ==> nodes[p] in Repr)
      && [] in nodes && nodes[[]] == root
      && Injective(nodes)
      && (forall p {:trigger nodes[p].children} :: p in nodes ==> nodes[p].children == Kids(nodes, p))
      && PrefixClosed(nodes)
    }

    /** They hold exactly the routes of `Contents`. */
    ghost predicate Routed()
      reads this, Repr
    {
      && (forall p :: p in nodes ==> nodes[p] in Repr)
      && (forall p :: p in nodes ==>
            nodes[p].route == if p in Contents then Some(Contents[p]) else None)
      && Contents.Keys <= nodes.Keys
    }

    ghost predicate Shape()
      reads this, Repr
    {
      Linked() && Routed()
    }

    ghost predicate Valid()
      reads this, Repr
    {
      Shape() && Contents == TableOf(Inserted)
    }

    constructor ()
      ensures Valid() && Inserted == [] && fresh(Repr)
    {
      root := new TrieNode();
      new;
      nodes, Contents, Inserted, Repr := map[[] := root], map[], [], {root};
      hide Linked, Routed, TableOf;
      LinkedAtFirst();
      RoutedAtFirst();
      EmptyTable();
    }

    lemma LinkedAtFirst()
      requires nodes == map[[] := root] && Repr == {root} && root.children == map[]
      ensures Linked()
    {
      RootAlone(root);
    }

    lemma RoutedAtFirst()
      requires nodes == map[[] := root] && Repr == {root} && root.route == None && Contents == map[]
      ensures Routed()
    {
    }

    /** The children of a node are the nodes one bit further. */
    lemma ChildIsNext(path: seq<bool>, dir: bool)
      requires Linked() && path in nodes
      ensures dir in nodes[path].children <==> path + [dir] in nodes
      ensures dir in nodes[path].children ==> nodes[path].children[dir] == nodes[path + [dir]]
      ensures [] in nodes && nodes[[]] == root
    {
    }

    /** Walks down the bits of a prefix and creates the nodes that are missing. */
    method Navigate(prefix: u32, length: nat) returns (node: TrieNode)
      requires Valid() && length <= 32
      modifies this, Repr
      ensures Valid() && fresh(Repr - old(Repr))
      ensures Contents == old(Contents) && Inserted == old(Inserted)
      ensures Bits(prefix, length) in nodes && nodes[Bits(prefix, length)] == node
    {
      node := root;
      var bit := 0;
      assert Bits(prefix, 0) == [];
      assert [] in nodes && nodes[[]] == root;
      hide Linked, Routed, TableOf, Bits;
      while bit < length
        invariant 0 <= bit <= length
        invariant Valid() && fresh(Repr - old(Repr))
        invariant Contents == old(Contents) && Inserted == old(Inserted)
        invariant Bits(prefix, bit) in nodes && nodes[Bits(prefix, bit)] == node
      {
        BitsStep(prefix, bit + 1);
        node := Descend(Bits(prefix, bit), node, Bit(prefix, bit));
        bit := bit + 1;
      }
    }

    /** One step of the walk, to a child that is created if it is missing. */
    method Descend(ghost path: seq<bool>, node: TrieNode, dir: bool) returns (child: TrieNode)
      requires Valid() && path in nodes && nodes[path] == node
      modifies this`nodes, this`Repr, node`children
      ensures Valid() && fresh(Repr - old(Repr))
      ensures path + [dir] in nodes && nodes[path + [dir]] == child
    {
      hide Linked, Routed, TableOf;
      if dir !in node.children {
        AddChild(path, node, dir);
      }
      ChildIsNext(path, dir);
      child := node.children[dir];
    }

    method AddChild(ghost path: seq<bool>, node: TrieNode, dir: bool)
      requires Shape() && path in nodes && nodes[path] == node && dir !in node.children
      modifies this`nodes, this`Repr, node`children
      ensures Shape() && fresh(Repr - old(Repr))
      ensures path in nodes && nodes[path] == node
      ensures path + [dir] in nodes && dir in node.children && nodes[path + [dir]] == node.children[dir]
    {
      hide Linked;
      ghost var before := nodes;
      Attach(path, node, dir);
      forall p | p in nodes ensures nodes[p].route == if p in Contents then Some(Contents[p]) else None {
        if p != path + [dir] { assert p in before && nodes[p] == before[p]; }
      }
    }

    /** Hangs a new leaf without a route below a node. */
    method Attach(ghost path: seq<bool>, node: TrieNode, dir: bool)
      requires Linked() && path in nodes && nodes[path] == node && dir !in node.children
      modifies this`nodes, this`Repr, node`children
      ensures Linked() && path + [dir] !in old(nodes) && dir in node.children
      ensures nodes == old(nodes)[path + [dir] := node.children[dir]]
      ensures fresh(node.children[dir]) && node.children[dir].route == None
      ensures Repr == old(Repr) + {node.children[dir]}
    {
      assert path + [dir] !in nodes;
      hide Kids, PrefixClosed, Injective;
      OtherNodes(nodes, path);
      var child := new TrieNode();
      InjectiveAfterAdd(nodes, path + [dir], child);
      KidsAfterAdd(nodes, path, dir, child);
      ghost var before, leaf := nodes, path + [dir];
      node.children := node.children[dir := child];
      nodes := nodes[leaf := child];
      Repr := Repr + {child};
      forall p | p in nodes ensures nodes[p] in Repr && nodes[p].children == Kids(nodes, p) {
        if p != leaf { assert p in before && nodes[p] == before[p]; }
      }
    }

    /** Inserts a route, or replaces the one with the same prefix. */
    method Insert(r: Route)
      requires Valid()
      modifies this, Repr
      ensures Valid() && fresh(Repr - old(Repr))
      ensures Inserted == old(Inserted) + [r]
    {
      hide Injective, Kids, PrefixClosed, TableOf, Bits;
      var node := Navigate(r.prefix, r.length);
      OtherNodes(nodes, Path(r));
      label before:
      node.route := Some(r);
      assert Linked() by {
        forall p | p in nodes ensures nodes[p].children == Kids(nodes, p) {
          assert nodes[p].children == old@before(nodes[p].children);
        }
      }
      Contents := Contents[Path(r) := r];
      Inserted := Inserted + [r];
      TableOfAppend(old(Inserted), r);
      hide Linked;
    }

    method LongestPrefixMatch(dst: u32) returns (best: Option<Route>)
      requires Valid()
      ensures best == Scan(Inserted, dst)
    {
      LookupEqualsScan(Inserted, dst);
      var node := root;
      best := root.route;
      var bit := 0;
      ghost var bits := Bits(dst, 32);
      while bit < 32
        invariant 0 <= bit <= 32
        invariant bits[..bit] in nodes && nodes[bits[..bit]] == node
        invariant best == LongestMatch(Contents, bits, bit)
      {
        var dir := Bit(dst, bit);
        assert bits[..bit + 1] == bits[..bit] + [dir];
        if dir !in node.children {
          NothingBelow(nodes, Contents, bits, bit);
          break;
        }
        node := node.children[dir];
        if node.route.Some? {
          best := node.route;
        }
        bit := bit + 1;
      }
    }
  }

  /** A new leaf is the child of its parent and of no other node, and has no children. */
  lemma KidsAfterAdd(nodes: map<seq<bool>, TrieNode>, path: seq<bool>, dir: bool, child: TrieNode)
    requires PrefixClosed(nodes) && path in nodes && path + [dir] !in nodes
    ensures var nodes' := nodes[path + [dir] := child];
            && PrefixClosed(nodes')
            && Kids(nodes', path) == Kids(nodes, path)[dir := child]
            && (forall p :: p != path ==> Kids(nodes', p) == Kids(nodes, p))
            && Kids(nodes', path + [dir]) == map[]
  {
    var nodes' := nodes[path + [dir] := child];
    forall p, d ensures p + [d] == path + [dir] <==> p == path && d == dir {
      AppendSame(p, path, d, dir);
    }
    forall d ensures path + [dir] + [d] !in nodes {
      if path + [dir] + [d] in nodes { ParentExists(nodes, path + [dir], d); }
    }
  }

  /** Where the walk ends, nothing longer is stored. */
  lemma {:induction false} NothingBelow(nodes: map<seq<bool>, TrieNode>, table: Table, bits: seq<bool>, n: nat)
    requires n < |bits| && bits[..n + 1] !in nodes
    requires PrefixClosed(nodes)
    requires table.Keys <= nodes.Keys
    ensures LongestMatch(table, bits, |bits|) == LongestMatch(table, bits, n)
  {
    var k := n;
    while k < |bits|
      invariant n <= k <= |bits|
      invariant LongestMatch(table, bits, k) == LongestMatch(table, bits, n)
      invariant k < |bits| ==> bits[..k + 1] !in nodes
    {
      if k + 1 < |bits| && bits[..k + 2] in nodes {
        assert bits[..k + 2] == bits[..k + 1] + [bits[k + 1]];
        ParentExists(nodes, bits[..k + 1], bits[k + 1]);
      }
      k := k + 1;
    }
  }
}
