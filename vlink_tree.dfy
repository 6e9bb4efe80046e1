/** The tree of vnodes of one virtual link (algo.cpp:3-9, 66-114,
    algo.h:253-285). The C++ tree owns its nodes through `unique_ptr`s
    held in each node's `next` vector; here the nodes live in one sequence,
    the root first, and a node refers to its parent and its children by
    index. A node is only ever appended, and a child is only ever appended
    to its parent's list, so indices stay valid and a child's index is
    always larger than its parent's. */
module VlinkTree {
  import opened Wrappers

  /** An input port as `Port`'s constructor leaves it: its id, the index
      of the output port it is linked to (`outPrev`), the id of the device
      that output port belongs to (`prevDevice`), and the vnode that enters
      through it for each virtual link id (an index into that virtual
      link's nodes). */
  datatype Port = Port(id: int, outPrev: int, prevDevice: int, vnodes: map<int, nat>)

  /** A vnode: its device id, its parent's index (-1 for the root), its
      children in insertion order, the index of its input port among its
      device's ports (None for `in == nullptr`), and `outPrev`. */
  datatype Vnode = Vnode(device: int, prev: int, next: seq<nat>, inPort: Option<nat>, outPrev: int)

  /** A virtual link: its id, its vnodes (`nodes[0]` is `src`) and `dst`,
      device id to leaf. */
  datatype Vlink = Vlink(id: int, nodes: seq<Vnode>, dst: map<int, nat>)

  /** Why building a virtual link stops at an `assert`. */
  datatype BuildError =
    | NoPaths         // paths empty, or the first path shorter than 2
    | WrongSource     // a path that does not start at the first path's source
    | PathPresent     // a path already in the tree: `i < path.size() - 1` fails
    | UnknownDevice   // `getDevice` finds no such device
    | NoInPort        // no port of the device comes from the parent's device

  // ---------------------------------------------------------------------
  // Shape of the arena

  /** Every child index is larger than its parent's and in range. */
  ghost predicate Ordered(nodes: seq<Vnode>) {
    forall i, k :: 0 <= i < |nodes| && 0 <= k < |nodes[i].next| ==> i < nodes[i].next[k] < |nodes|
  }

  /** Every node other than the root has an earlier parent. */
  ghost predicate ParentsBefore(nodes: seq<Vnode>) {
    forall j :: 0 < j < |nodes| ==> 0 <= nodes[j].prev < j
  }

  /** A child appears once in its parent's list. */
  predicate NoDup(cs: seq<nat>) {
    forall a, b :: 0 <= a < b < |cs| ==> cs[a] != cs[b]
  }

  /** The parent and child links agree: the tree the C++ pointers form. */
  ghost predicate Wf(nodes: seq<Vnode>) {
    |nodes| > 0 && nodes[0].prev == -1 &&
    Ordered(nodes) && ParentsBefore(nodes) &&
    (forall j :: 0 < j < |nodes| ==> j in nodes[nodes[j].prev].next) &&
    (forall i, k :: 0 <= i < |nodes| && 0 <= k < |nodes[i].next| ==> nodes[nodes[i].next[k]].prev == i) &&
    (forall i :: 0 <= i < |nodes| ==> NoDup(nodes[i].next))
  }

  // ---------------------------------------------------------------------
  // treeSize

  /** `treeSize`: 1 plus the sizes of the children's subtrees. */
  ghost function TreeSize(nodes: seq<Vnode>, i: nat): (r: nat)
    requires Ordered(nodes) && i < |nodes|
    ensures r >= 1
    decreases |nodes| - i, 1
  {
    1 + SizeSum(nodes, nodes[i].next, i)
  }

  /** The sizes of the subtrees of cs, all nodes after i. */
  ghost function SizeSum(nodes: seq<Vnode>, cs: seq<nat>, i: nat): nat
    requires Ordered(nodes) && forall k :: 0 <= k < |cs| ==> i < cs[k] < |nodes|
    decreases |nodes| - i, 0, |cs|
  {
    if cs == [] then 0
    else SizeSum(nodes, cs[..|cs| - 1], i) + TreeSize(nodes, cs[|cs| - 1])
  }

  /** The recursive C++ function: a loop adding the children's sizes. */
  method ComputeTreeSize(nodes: seq<Vnode>, i: nat) returns (s: nat)
    requires Ordered(nodes) && i < |nodes|
    ensures s == TreeSize(nodes, i)
    decreases |nodes| - i
  {
    s := 1;
    var cs := nodes[i].next;
    var k := 0;
    while k < |cs|
      invariant 0 <= k <= |cs|
      invariant s == 1 + SizeSum(nodes, cs[..k], i)
    {
      assert cs[..k + 1][..k] == cs[..k];
      var t := ComputeTreeSize(nodes, cs[k]);
      s := s + t;
      k := k + 1;
    }
    assert cs[..k] == cs;
  }

  // ---------------------------------------------------------------------
  // Ancestors

  /** u is v or an ancestor of v. */
  ghost predicate Anc(nodes: seq<Vnode>, u: int, v: nat)
    requires ParentsBefore(nodes) && v < |nodes|
    decreases v
  {
    u == v || (0 < v && Anc(nodes, u, nodes[v].prev))
  }

  lemma {:induction false} AncBefore(nodes: seq<Vnode>, u: int, v: nat)
    requires ParentsBefore(nodes) && v < |nodes| && Anc(nodes, u, v)
    ensures u <= v
    decreases v
  {
    if u != v {
      AncBefore(nodes, u, nodes[v].prev);
    }
  }

  /** An ancestor of v's ancestor is v's ancestor. */
  lemma {:induction false} AncParent(nodes: seq<Vnode>, c: nat, v: nat)
    requires ParentsBefore(nodes) && 0 < c <= v < |nodes| && Anc(nodes, c, v)
    ensures Anc(nodes, nodes[c].prev, v)
    decreases v
  {
    if c != v {
      AncBefore(nodes, c, nodes[v].prev);
      AncParent(nodes, c, nodes[v].prev);
    }
  }

  /** Below a proper ancestor u of v there is a child of u on the way to v. */
  lemma {:induction false} AncChild(nodes: seq<Vnode>, u: nat, v: nat) returns (c: nat)
    requires ParentsBefore(nodes) && v < |nodes| && Anc(nodes, u, v) && u != v
    ensures 0 < c <= v && nodes[c].prev == u && Anc(nodes, c, v)
    decreases v
  {
    var p := nodes[v].prev;
    if p == u {
      c := v;
    } else {
      c := AncChild(nodes, u, p);
    }
  }

  /** Two siblings on the way to the same node are the same node. */
  lemma {:induction false} AncSiblings(nodes: seq<Vnode>, c1: nat, c2: nat, v: nat)
    requires ParentsBefore(nodes) && 0 < c1 < |nodes| && 0 < c2 < |nodes| && v < |nodes|
    requires nodes[c1].prev == nodes[c2].prev && Anc(nodes, c1, v) && Anc(nodes, c2, v)
    ensures c1 == c2
    decreases v
  {
    if v == c1 || v == c2 {
      var a := if v == c1 then c2 else c1;
      var b := if v == c1 then c1 else c2;
      if a != b {
        AncBefore(nodes, a, nodes[b].prev);
      }
    } else {
      AncSiblings(nodes, c1, c2, nodes[v].prev);
    }
  }

  /** The root is an ancestor of every node. */
  lemma {:induction false} RootAnc(nodes: seq<Vnode>, v: nat)
    requires ParentsBefore(nodes) && v < |nodes|
    ensures Anc(nodes, 0, v)
    decreases v
  {
    if v != 0 {
      RootAnc(nodes, nodes[v].prev);
    }
  }

  /** How many of cs lead to v. */
  ghost function CountAnc(nodes: seq<Vnode>, cs: seq<nat>, v: nat): nat
    requires ParentsBefore(nodes) && v < |nodes|
  {
    if cs == [] then 0
    else CountAnc(nodes, cs[..|cs| - 1], v) + (if Anc(nodes, cs[|cs| - 1], v) then 1 else 0)
  }

  lemma {:induction false} CountAncNone(nodes: seq<Vnode>, cs: seq<nat>, v: nat)
    requires ParentsBefore(nodes) && v < |nodes|
    requires forall k :: 0 <= k < |cs| ==> !Anc(nodes, cs[k], v)
    ensures CountAnc(nodes, cs, v) == 0
  {
    if cs != [] {
      CountAncNone(nodes, cs[..|cs| - 1], v);
    }
  }

  lemma {:induction false} CountAncOne(nodes: seq<Vnode>, cs: seq<nat>, v: nat, k: nat)
    requires ParentsBefore(nodes) && v < |nodes| && k < |cs| && Anc(nodes, cs[k], v)
    requires forall k' :: 0 <= k' < |cs| && k' != k ==> !Anc(nodes, cs[k'], v)
    ensures CountAnc(nodes, cs, v) == 1
  {
    var n := |cs| - 1;
    if k == n {
      CountAncNone(nodes, cs[..n], v);
    } else {
      CountAncOne(nodes, cs[..n], v, k);
    }
  }

  /** Exactly one child of a proper ancestor of v leads to v; none of the
      children of any other node does. */
  lemma CountChildren(nodes: seq<Vnode>, u: nat, v: nat)
    requires Wf(nodes) && u < |nodes| && v < |nodes|
    ensures CountAnc(nodes, nodes[u].next, v) == if Anc(nodes, u, v) && u != v then 1 else 0
  {
    var cs := nodes[u].next;
    if exists k :: 0 <= k < |cs| && Anc(nodes, cs[k], v) {
      var k :| 0 <= k < |cs| && Anc(nodes, cs[k], v);
      forall k' | 0 <= k' < |cs| && k' != k
        ensures !Anc(nodes, cs[k'], v)
      {
        if Anc(nodes, cs[k'], v) {
          AncSiblings(nodes, cs[k], cs[k'], v);
          assert false;
        }
      }
      CountAncOne(nodes, cs, v, k);
      AncBefore(nodes, cs[k], v);
      AncParent(nodes, cs[k], v);
    } else {
      CountAncNone(nodes, cs, v);
      if Anc(nodes, u, v) && u != v {
        var c := AncChild(nodes, u, v);
        assert false;
      }
    }
  }

  // ---------------------------------------------------------------------
  // Appending a node

  /** `vnode->next.push_back(...)` with the new node x stored last. */
  function Attach(nodes: seq<Vnode>, v: nat, x: Vnode): seq<Vnode>
    requires v < |nodes|
  {
    nodes[v := nodes[v].(next := nodes[v].next + [|nodes|])] + [x]
  }

  /** A node with no children, hung under v. */
  ghost predicate Leaf(x: Vnode, v: nat) {
    x.prev == v && x.next == []
  }

  lemma AttachWf(nodes: seq<Vnode>, v: nat, x: Vnode)
    requires Wf(nodes) && v < |nodes| && Leaf(x, v)
    ensures Wf(Attach(nodes, v, x))
  {
    var m := Attach(nodes, v, x);
    AttachChildren(nodes, v, x);
    AttachParents(nodes, v, x);
    forall i | 0 <= i < |m|
      ensures NoDup(m[i].next)
    {
      if i == v {
        assert forall c :: c in nodes[v].next ==> c < |nodes|;
      }
    }
  }

  lemma AttachChildren(nodes: seq<Vnode>, v: nat, x: Vnode)
    requires Wf(nodes) && v < |nodes| && Leaf(x, v)
    ensures var m := Attach(nodes, v, x);
      forall i, k :: 0 <= i < |m| && 0 <= k < |m[i].next| ==> i < m[i].next[k] < |m| && m[m[i].next[k]].prev == i
  {
    var m := Attach(nodes, v, x);
    forall i, k | 0 <= i < |m| && 0 <= k < |m[i].next|
      ensures i < m[i].next[k] < |m| && m[m[i].next[k]].prev == i
    {
      if i == v && k == |nodes[v].next| {
      } else {
        assert m[i].next[k] == nodes[i].next[k];
      }
    }
  }

  lemma AttachParents(nodes: seq<Vnode>, v: nat, x: Vnode)
    requires Wf(nodes) && v < |nodes| && Leaf(x, v)
    ensures var m := Attach(nodes, v, x);
      ParentsBefore(m) && m[0].prev == -1 && forall j :: 0 < j < |m| ==> j in m[m[j].prev].next
  {
    var m := Attach(nodes, v, x);
    forall j | 0 < j < |m|
      ensures 0 <= m[j].prev < j && j in m[m[j].prev].next
    {
      if j < |nodes| {
        assert j in nodes[nodes[j].prev].next;
      }
    }
  }

  /** Ancestry among the old nodes does not change. */
  lemma {:induction false} AttachAnc(nodes: seq<Vnode>, v: nat, x: Vnode, u: int, w: nat)
    requires ParentsBefore(nodes) && v < |nodes| && w < |nodes| && x.prev == v
    ensures ParentsBefore(Attach(nodes, v, x))
    ensures Anc(Attach(nodes, v, x), u, w) == Anc(nodes, u, w)
    decreases w
  {
    var m := Attach(nodes, v, x);
    assert forall j :: 0 < j < |nodes| ==> m[j].prev == nodes[j].prev;
    if w != 0 && u != w {
      AttachAnc(nodes, v, x, u, nodes[w].prev);
    }
  }

  /** Appending a leaf under v adds one to the size of the subtree of
      every node on the way from the root to v, and nothing elsewhere. */
  lemma {:induction false} AttachSize(nodes: seq<Vnode>, v: nat, x: Vnode, u: nat)
    requires Wf(nodes) && v < |nodes| && Leaf(x, v) && u < |nodes|
    ensures Wf(Attach(nodes, v, x))
    ensures TreeSize(Attach(nodes, v, x), u) == TreeSize(nodes, u) + (if Anc(nodes, u, v) then 1 else 0)
    decreases |nodes| - u, 1
  {
    AttachWf(nodes, v, x);
    var m := Attach(nodes, v, x);
    var cs := nodes[u].next;
    SizeSumShift(nodes, v, x, cs, u);
    CountChildren(nodes, u, v);
    if u == v {
      var n := |nodes|;
      assert m[u].next == cs + [n];
      assert (cs + [n])[..|cs|] == cs;
      assert TreeSize(m, n) == 1;
      assert !Anc(nodes, u, v) ==> false;
    } else {
      assert m[u].next == cs;
    }
  }

  /** The subtree sizes of the children cs of u, after the append. */
  lemma {:induction false} SizeSumShift(nodes: seq<Vnode>, v: nat, x: Vnode, cs: seq<nat>, u: nat)
    requires Wf(nodes) && v < |nodes| && Leaf(x, v) && u < |nodes|
    requires forall k :: 0 <= k < |cs| ==> u < cs[k] < |nodes|
    ensures Wf(Attach(nodes, v, x))
    ensures SizeSum(Attach(nodes, v, x), cs, u) == SizeSum(nodes, cs, u) + CountAnc(nodes, cs, v)
    decreases |nodes| - u, 0, |cs|
  {
    AttachWf(nodes, v, x);
    if cs != [] {
      var n := |cs| - 1;
      SizeSumShift(nodes, v, x, cs[..n], u);
      AttachSize(nodes, v, x, cs[n]);
    }
  }

  /** Appending a leaf anywhere makes the whole tree one node larger. */
  lemma GrowTree(nodes: seq<Vnode>, v: nat, x: Vnode)
    requires Wf(nodes) && v < |nodes| && Leaf(x, v)
    ensures Wf(Attach(nodes, v, x))
    ensures TreeSize(Attach(nodes, v, x), 0) == TreeSize(nodes, 0) + 1
  {
    RootAnc(nodes, v);
    AttachSize(nodes, v, x, 0);
  }

  // ---------------------------------------------------------------------
  // selectNext and following a path

  /** The first of cs whose node is on device d. */
  function FirstIn(nodes: seq<Vnode>, cs: seq<nat>, d: int): (r: Option<nat>)
    requires forall k :: 0 <= k < |cs| ==> cs[k] < |nodes|
    ensures r.None? <==> forall k :: 0 <= k < |cs| ==> nodes[cs[k]].device != d
    ensures r.Some? ==> exists k :: (0 <= k < |cs| && cs[k] == r.value && nodes[cs[k]].device == d &&
      forall k' :: 0 <= k' < k ==> nodes[cs[k']].device != d)
  {
    if cs == [] then None
    else if nodes[cs[0]].device == d then Some(cs[0])
    else
      var r := FirstIn(nodes, cs[1..], d);
      assert forall k :: 1 <= k < |cs| ==> cs[k] == cs[1..][k - 1];
      r
  }

  /** The child of v that `selectNext(d)` returns: the first one on
      device d, or None for `nullptr`. */
  function FirstChild(nodes: seq<Vnode>, v: nat, d: int): Option<nat>
    requires Ordered(nodes) && v < |nodes|
  {
    FirstIn(nodes, nodes[v].next, d)
  }

  /** `Vnode::selectNext`: the loop over the children. */
  method SelectNext(nodes: seq<Vnode>, v: nat, d: int) returns (r: Option<nat>)
    requires Ordered(nodes) && v < |nodes|
    ensures r == FirstChild(nodes, v, d)
    ensures r.Some? ==> r.value in nodes[v].next && nodes[r.value].device == d
    ensures r.None? <==> forall c :: c in nodes[v].next ==> nodes[c].device != d
  {
    var cs := nodes[v].next;
    var k := 0;
    while k < |cs|
      invariant 0 <= k <= |cs|
      invariant FirstIn(nodes, cs, d) == FirstIn(nodes, cs[k..], d)
    {
      if nodes[cs[k]].device == d {
        return Some(cs[k]);
      }
      assert cs[k..][1..] == cs[k + 1..];
      k := k + 1;
    }
    return None;
  }

  /** The node reached from v by `selectNext` on each device of ds in
      turn, or None where a step finds no child. */
  function Walk(nodes: seq<Vnode>, v: nat, ds: seq<int>): (r: Option<nat>)
    requires Ordered(nodes) && v < |nodes|
    ensures r.Some? ==> r.value < |nodes|
    decreases |ds|
  {
    if ds == [] then Some(v)
    else
      match FirstChild(nodes, v, ds[0])
      case None => None
      case Some(c) => Walk(nodes, c, ds[1..])
  }

  /** One more step at the end of a walk. */
  lemma {:induction false} WalkSnoc(nodes: seq<Vnode>, v: nat, ds: seq<int>, d: int)
    requires Ordered(nodes) && v < |nodes|
    ensures Walk(nodes, v, ds + [d]) ==
      if Walk(nodes, v, ds).Some? then FirstChild(nodes, Walk(nodes, v, ds).value, d) else None
    decreases |ds|
  {
    if ds != [] {
      assert (ds + [d])[0] == ds[0] && (ds + [d])[1..] == ds[1..] + [d];
      match FirstChild(nodes, v, ds[0])
      case None =>
      case Some(c) => WalkSnoc(nodes, c, ds[1..], d);
    } else {
      assert ([] + [d])[1..] == [];
    }
  }

  /** A walk that succeeds succeeds on every prefix. */
  lemma {:induction false} WalkPrefix(nodes: seq<Vnode>, v: nat, ds: seq<int>, es: seq<int>)
    requires Ordered(nodes) && v < |nodes| && Walk(nodes, v, ds + es).Some?
    ensures Walk(nodes, v, ds).Some?
    decreases |ds|
  {
    if ds != [] {
      assert (ds + es)[0] == ds[0] && (ds + es)[1..] == ds[1..] + es;
      WalkPrefix(nodes, FirstChild(nodes, v, ds[0]).value, ds[1..], es);
    }
  }

  /** A walk over a non-empty list ends on a node of the list's last device. */
  lemma {:induction false} WalkDevice(nodes: seq<Vnode>, v: nat, ds: seq<int>)
    requires Ordered(nodes) && v < |nodes| && Walk(nodes, v, ds).Some?
    ensures nodes[Walk(nodes, v, ds).value].device == if ds == [] then nodes[v].device else ds[|ds| - 1]
    decreases |ds|
  {
    if ds != [] {
      var c := FirstChild(nodes, v, ds[0]).value;
      WalkDevice(nodes, c, ds[1..]);
    }
  }

  // ---------------------------------------------------------------------
  // Growing the tree keeps what was there

  /** b is a with children appended to some lists and nodes appended at
      the end. */
  ghost predicate Extends(a: seq<Vnode>, b: seq<Vnode>) {
    |a| <= |b| &&
    forall j :: 0 <= j < |a| ==>
      b[j].device == a[j].device && b[j].prev == a[j].prev &&
      b[j].inPort == a[j].inPort && b[j].outPrev == a[j].outPrev &&
      a[j].next <= b[j].next
  }

  lemma ExtendsTrans(a: seq<Vnode>, b: seq<Vnode>, c: seq<Vnode>)
    requires Extends(a, b) && Extends(b, c)
    ensures Extends(a, c)
  {
    forall j | 0 <= j < |a|
      ensures a[j].next <= c[j].next
    {
      assert a[j].next <= b[j].next <= c[j].next;
    }
  }

  lemma AttachExtends(nodes: seq<Vnode>, v: nat, x: Vnode)
    requires v < |nodes|
    ensures Extends(nodes, Attach(nodes, v, x))
  {
  }

  /** A first match in a list is still the first match once the list is
      extended. */
  lemma {:induction false} FirstInExtends(a: seq<Vnode>, b: seq<Vnode>, cs: seq<nat>, ds: seq<nat>, d: int)
    requires Extends(a, b) && cs <= ds
    requires forall k :: 0 <= k < |cs| ==> cs[k] < |a|
    requires forall k :: 0 <= k < |ds| ==> ds[k] < |b|
    requires FirstIn(a, cs, d).Some?
    ensures FirstIn(b, ds, d) == FirstIn(a, cs, d)
  {
    assert cs[0] == ds[0];
    if a[cs[0]].device != d {
      assert forall k :: 0 <= k < |cs| - 1 ==> cs[1..][k] == cs[k + 1];
      FirstInExtends(a, b, cs[1..], ds[1..], d);
    }
  }

  /** A walk that succeeds keeps its end node as the tree grows. */
  lemma {:induction false} WalkExtends(a: seq<Vnode>, b: seq<Vnode>, v: nat, ds: seq<int>)
    requires Ordered(a) && Ordered(b) && Extends(a, b) && v < |a| && Walk(a, v, ds).Some?
    ensures Walk(b, v, ds) == Walk(a, v, ds)
    decreases |ds|
  {
    if ds != [] {
      FirstInExtends(a, b, a[v].next, b[v].next, ds[0]);
      WalkExtends(a, b, FirstChild(a, v, ds[0]).value, ds[1..]);
    }
  }

  // ---------------------------------------------------------------------
  // Children by device, and the input ports

  /** No vnode has two children on the same device. */
  ghost predicate DistinctChildren(nodes: seq<Vnode>)
    requires Ordered(nodes)
  {
    forall i, a, b :: 0 <= i < |nodes| && 0 <= a < b < |nodes[i].next| ==>
      nodes[nodes[i].next[a]].device != nodes[nodes[i].next[b]].device
  }

  lemma AttachDistinct(nodes: seq<Vnode>, v: nat, x: Vnode)
    requires Wf(nodes) && DistinctChildren(nodes) && v < |nodes| && Leaf(x, v)
    requires FirstChild(nodes, v, x.device).None?
    ensures Wf(Attach(nodes, v, x)) && DistinctChildren(Attach(nodes, v, x))
  {
    AttachWf(nodes, v, x);
    var m := Attach(nodes, v, x);
    forall i, a, b | 0 <= i < |m| && 0 <= a < b < |m[i].next|
      ensures m[m[i].next[a]].device != m[m[i].next[b]].device
    {
      AttachPair(nodes, v, x, i, a, b);
    }
  }

  /** Two children of one node after attaching x still differ in device. */
  lemma AttachPair(nodes: seq<Vnode>, v: nat, x: Vnode, i: nat, a: nat, b: nat)
    requires Wf(nodes) && DistinctChildren(nodes) && v < |nodes| && Leaf(x, v)
    requires FirstChild(nodes, v, x.device).None?
    requires Ordered(Attach(nodes, v, x))
    requires i < |Attach(nodes, v, x)| && a < b < |Attach(nodes, v, x)[i].next|
    ensures var m := Attach(nodes, v, x);
      m[m[i].next[a]].device != m[m[i].next[b]].device
  {
    var m := Attach(nodes, v, x);
    var n := |nodes|;
    var ca := nodes[i].next[a];
    assert m[i].next[a] == ca && m[ca].device == nodes[ca].device;
    if i == v && b == |nodes[v].next| {
      assert m[i].next[b] == n && m[n] == x;
    } else {
      var cb := nodes[i].next[b];
      assert m[i].next[b] == cb && m[cb].device == nodes[cb].device;
    }
  }

  /** Port idx is the first of ports linked from device d. */
  predicate FirstFrom(ports: seq<Port>, idx: nat, d: int) {
    idx < |ports| && ports[idx].prevDevice == d &&
    forall k :: 0 <= k < idx ==> ports[k].prevDevice != d
  }

  /** A non-root vnode's `in` is the first port of its device that comes
      from the parent's device, and `outPrev` is that port's. */
  predicate InPortOk(x: Vnode, devices: map<int, seq<Port>>, prevDevice: int) {
    x.device in devices && x.inPort.Some? &&
    FirstFrom(devices[x.device], x.inPort.value, prevDevice) &&
    x.outPrev == devices[x.device][x.inPort.value].outPrev
  }

  /** The root has no input port and `outPrev == -1`; every other vnode
      has the input port its constructor chose. */
  ghost predicate InPortsOk(nodes: seq<Vnode>, devices: map<int, seq<Port>>)
    requires ParentsBefore(nodes)
  {
    |nodes| > 0 && nodes[0].inPort == None && nodes[0].outPrev == -1 &&
    forall j :: 0 < j < |nodes| ==> InPortOk(nodes[j], devices, nodes[nodes[j].prev].device)
  }

  lemma AttachInPorts(nodes: seq<Vnode>, v: nat, x: Vnode, devices: map<int, seq<Port>>)
    requires ParentsBefore(nodes) && InPortsOk(nodes, devices) && v < |nodes| && x.prev == v
    requires InPortOk(x, devices, nodes[v].device)
    ensures ParentsBefore(Attach(nodes, v, x)) && InPortsOk(Attach(nodes, v, x), devices)
  {
    var m := Attach(nodes, v, x);
    assert forall j :: 0 < j < |nodes| ==> m[j].prev == nodes[j].prev;
  }

  /** The everything-holds invariant of a tree under construction. */
  ghost predicate Good(nodes: seq<Vnode>, devices: map<int, seq<Port>>) {
    Wf(nodes) && DistinctChildren(nodes) && InPortsOk(nodes, devices) && TreeSize(nodes, 0) == |nodes|
  }

  /** Appending a leaf that `selectNext` did not find, with its input
      port chosen, keeps the invariant. */
  lemma AttachGood(nodes: seq<Vnode>, v: nat, x: Vnode, devices: map<int, seq<Port>>)
    requires Good(nodes, devices) && v < |nodes| && Leaf(x, v)
    requires FirstChild(nodes, v, x.device).None? && InPortOk(x, devices, nodes[v].device)
    ensures Good(Attach(nodes, v, x), devices) && Extends(nodes, Attach(nodes, v, x))
    ensures FirstChild(Attach(nodes, v, x), v, x.device) == Some(|nodes|)
  {
    GrowTree(nodes, v, x);
    AttachDistinct(nodes, v, x);
    AttachInPorts(nodes, v, x, devices);
    AttachExtends(nodes, v, x);
    AttachFirstChild(nodes, v, x);
  }

  /** The appended leaf is the child `selectNext` now finds for its device. */
  lemma AttachFirstChild(nodes: seq<Vnode>, v: nat, x: Vnode)
    requires Ordered(nodes) && v < |nodes| && FirstChild(nodes, v, x.device).None?
    requires Ordered(Attach(nodes, v, x))
    ensures FirstChild(Attach(nodes, v, x), v, x.device) == Some(|nodes|)
  {
    var m := Attach(nodes, v, x);
    var cs := nodes[v].next;
    var ds := cs + [|nodes|];
    assert m[v].next == ds;
    assert forall k :: 0 <= k < |cs| ==> ds[k] == cs[k] && m[cs[k]].device == nodes[cs[k]].device;
    assert m[ds[|cs|]].device == x.device;
    var r := FirstIn(m, ds, x.device);
    var k :| 0 <= k < |ds| && ds[k] == r.value && m[ds[k]].device == x.device;
    if k < |cs| {
      assert false;
    }
  }

  // ---------------------------------------------------------------------
  // Which path leads to a vnode

  /** The devices on the way from the root down to v, the root's own left
      out: the list a walk from the root follows to reach v. */
  ghost function Label(nodes: seq<Vnode>, v: nat): seq<int>
    requires ParentsBefore(nodes) && v < |nodes|
    decreases v
  {
    if v == 0 then [] else Label(nodes, nodes[v].prev) + [nodes[v].device]
  }

  /** A walk from the root follows exactly the label of the vnode it ends
      on, so two walks that end on the same vnode followed the same
      devices. */
  lemma {:induction false} WalkLabel(nodes: seq<Vnode>, ds: seq<int>)
    requires Wf(nodes) && Walk(nodes, 0, ds).Some?
    ensures Label(nodes, Walk(nodes, 0, ds).value) == ds
    decreases |ds|
  {
    if ds != [] {
      var n := |ds| - 1;
      assert ds == ds[..n] + [ds[n]];
      WalkSnoc(nodes, 0, ds[..n], ds[n]);
      WalkLabel(nodes, ds[..n]);
      var u := Walk(nodes, 0, ds[..n]).value;
      var v := Walk(nodes, 0, ds).value;
      var cs := nodes[u].next;
      var k :| 0 <= k < |cs| && cs[k] == v && nodes[cs[k]].device == ds[n];
      assert nodes[v].prev == u && u < v;
    }
  }

  /** The vnodes from index n0 on all have a label that is a prefix of ds. */
  ghost predicate LabelsIn(nodes: seq<Vnode>, n0: nat, ds: seq<int>)
    requires ParentsBefore(nodes)
  {
    forall v :: n0 <= v < |nodes| ==> Label(nodes, v) <= ds
  }

  /** Growing the tree does not change the label of an existing vnode. */
  lemma {:induction false} LabelExtends(a: seq<Vnode>, b: seq<Vnode>, v: nat)
    requires ParentsBefore(a) && ParentsBefore(b) && Extends(a, b) && v < |a|
    ensures Label(b, v) == Label(a, v)
    decreases v
  {
    if v != 0 {
      LabelExtends(a, b, a[v].prev);
    }
  }

  /** The hops of a walk in a tree under construction all had an input
      port: every vnode on the way was made by `Vnode::Vnode`. */
  lemma {:induction false} WalkHops(nodes: seq<Vnode>, devices: map<int, seq<Port>>, path: seq<int>, i: nat)
    requires Wf(nodes) && InPortsOk(nodes, devices) && 1 <= i <= |path| && path[0] == nodes[0].device
    requires Walk(nodes, 0, path[1..i]).Some?
    ensures HopsBetween(devices, path, 1, i)
    decreases i
  {
    if i > 1 {
      WalkStep(nodes, path, i - 1);
      WalkHops(nodes, devices, path, i - 1);
      var u := Walk(nodes, 0, path[1..i - 1]).value;
      var v := Walk(nodes, 0, path[1..i]).value;
      var cs := nodes[u].next;
      var k :| 0 <= k < |cs| && cs[k] == v && nodes[cs[k]].device == path[i - 1];
      assert nodes[v].prev == u && u < v;
      WalkDevice(nodes, 0, path[1..i - 1]);
      assert nodes[u].device == path[i - 2];
      var idx := nodes[v].inPort.value;
      assert devices[path[i - 1]][idx].prevDevice == path[i - 2];
    }
  }

  // ---------------------------------------------------------------------
  // The constructors

  /** Device d exists and one of its ports is linked from device p: what
      `Vnode::Vnode` needs to find an input port on d. */
  predicate HasPortFrom(devices: map<int, seq<Port>>, d: int, p: int) {
    d in devices && exists k :: 0 <= k < |devices[d]| && devices[d][k].prevDevice == p
  }

  /** Every device of path at a position from i0 up to j has a port linked
      from the device before it. */
  predicate HopsBetween(devices: map<int, seq<Port>>, path: seq<int>, i0: nat, j: nat) {
    forall i :: i0 <= i < j && i < |path| && 0 < i ==> HasPortFrom(devices, path[i], path[i - 1])
  }

  /** Every device of path from position i0 on has a port linked from the
      device before it. */
  predicate HopsFrom(devices: map<int, seq<Port>>, path: seq<int>, i0: nat) {
    HopsBetween(devices, path, i0, |path|)
  }

  /** The hops before i being fine, all hops are fine exactly when those
      from i on are. */
  lemma HopsSplit(devices: map<int, seq<Port>>, path: seq<int>, i: nat)
    requires 1 <= i <= |path| && HopsBetween(devices, path, 1, i)
    ensures HopsFrom(devices, path, 1) <==> HopsFrom(devices, path, i)
  {
  }

  /** `Vnode::Vnode` for a vnode with a parent: the device is looked up
      among `devices` and its first port from the parent's device is the
      input port. */
  method NewVnode(devices: map<int, seq<Port>>, deviceId: int, prev: nat, prevDevice: int)
    returns (r: Result<Vnode, BuildError>)
    ensures r.Success? <==> HasPortFrom(devices, deviceId, prevDevice)
    ensures r.Failure? ==> r.error == if deviceId in devices then NoInPort else UnknownDevice
    ensures r.Success? ==>
      Leaf(r.value, prev) && r.value.device == deviceId && InPortOk(r.value, devices, prevDevice)
  {
    if deviceId !in devices {
      return Failure(UnknownDevice);
    }
    var ports := devices[deviceId];
    if ports == [] {
      return Failure(NoInPort);
    }
    var k := 0;
    while k < |ports|
      invariant 0 <= k <= |ports|
      invariant forall k' :: 0 <= k' < k ==> ports[k'].prevDevice != prevDevice
    {
      if ports[k].prevDevice == prevDevice {
        return Success(Vnode(deviceId, prev, [], Some(k), ports[k].outPrev));
      }
      k := k + 1;
    }
    return Failure(NoInPort);
  }

  /** `Vnode::Vnode` for the root: the device is looked up among the
      sources; there is no input port. */
  method NewRoot(sources: set<int>, deviceId: int) returns (r: Result<Vnode, BuildError>)
    ensures r.Success? <==> deviceId in sources
    ensures r.Failure? ==> r.error == UnknownDevice
    ensures r.Success? ==> r.value == Vnode(deviceId, -1, [], None, -1)
  {
    if deviceId !in sources {
      return Failure(UnknownDevice);
    }
    return Success(Vnode(deviceId, -1, [], None, -1));
  }

  function Last(path: seq<int>): int
    requires path != []
  {
    path[|path| - 1]
  }

  /** The node a path from the root leads to: `selectNext` on each device
      after the first. */
  function PathEnd(nodes: seq<Vnode>, path: seq<int>): Option<nat>
    requires Ordered(nodes) && |nodes| > 0 && path != []
  {
    Walk(nodes, 0, path[1..])
  }

  /** One turn of the loop over the paths in `Vlink::Vlink`: walk down
      with `selectNext` while the path is already in the tree, append a
      vnode for each remaining device, and record the last one in `dst`. */
  method InsertPath(nodes0: seq<Vnode>, dst0: map<int, nat>, path: seq<int>, devices: map<int, seq<Port>>)
    returns (r: Result<(seq<Vnode>, map<int, nat>), BuildError>)
    requires Good(nodes0, devices)
    ensures (r.Failure? && r.error == WrongSource) <==> (path == [] || path[0] != nodes0[0].device)
    ensures path != [] && path[0] == nodes0[0].device ==>
      ((r.Failure? && r.error == PathPresent) <==> PathEnd(nodes0, path).Some?)
    ensures r.Failure? ==> r.error != NoPaths
    ensures r.Success? <==>
      path != [] && path[0] == nodes0[0].device && PathEnd(nodes0, path).None? && HopsFrom(devices, path, 1)
    ensures r.Success? ==>
      Good(r.value.0, devices) && Extends(nodes0, r.value.0) && |path| >= 2 &&
      PathEnd(r.value.0, path).Some? &&
      r.value.0[PathEnd(r.value.0, path).value].device == Last(path) &&
      r.value.1 == dst0[Last(path) := PathEnd(r.value.0, path).value] &&
      LabelsIn(r.value.0, |nodes0|, path[1..])
  {
    if path == [] || path[0] != nodes0[0].device {
      return Failure(WrongSource);
    }
    var walked := WalkDown(nodes0, path);
    if walked.Failure? {
      return Failure(walked.error);
    }
    var (i, vnode) := walked.value;
    WalkHops(nodes0, devices, path, i);
    HopsSplit(devices, path, i);
    var grown := AppendRest(nodes0, path, i, vnode, devices);
    if grown.Failure? {
      return Failure(grown.error);
    }
    var (nodes, leaf) := grown.value;
    var dst := dst0[nodes[leaf].device := leaf];
    return Success((nodes, dst));
  }

  /** The `while` loop of `Vlink::Vlink`: follow `selectNext` from the
      root; reaching the end of the path fails the `assert`. On success,
      i is the first position whose device is missing under vnode. */
  method WalkDown(nodes: seq<Vnode>, path: seq<int>) returns (r: Result<(nat, nat), BuildError>)
    requires Ordered(nodes) && |nodes| > 0 && path != []
    ensures r.Failure? <==> PathEnd(nodes, path).Some?
    ensures r.Failure? ==> r.error == PathPresent
    ensures r.Success? ==>
      var (i, vnode) := r.value;
      1 <= i < |path| && Walk(nodes, 0, path[1..i]) == Some(vnode) && FirstChild(nodes, vnode, path[i]).None?
  {
    var i := 0;
    var vnode := 0;
    var vnodeNext: Option<nat> := Some(0);
    assert path[1..1] == [];
    while vnodeNext.Some?
      invariant Walking(nodes, path, i, vnode, vnodeNext)
      decreases |path| - i
    {
      if i >= |path| - 1 {
        WalkWhole(nodes, path, i + 1);
        return Failure(PathPresent);
      }
      WalkingStep(nodes, path, i, vnode, vnodeNext.value);
      vnode := vnodeNext.value;
      i := i + 1;
      vnodeNext := SelectNext(nodes, vnode, path[i]);
    }
    NotPresent(nodes, path, i);
    return Success((i, vnode));
  }

  /** The state of the `while` loop: vnodeNext is where the walk along
      path[1..i] leads; once it is null, vnode is the last vnode reached
      and it has no child for path[i]. */
  ghost predicate Walking(nodes: seq<Vnode>, path: seq<int>, i: nat, vnode: nat, vnodeNext: Option<nat>)
    requires Ordered(nodes) && |nodes| > 0
  {
    i < |path| && vnode < |nodes| &&
    (vnodeNext.Some? ==> Walk(nodes, 0, path[1..i + 1]) == vnodeNext) &&
    (vnodeNext.None? ==>
      1 <= i && Walk(nodes, 0, path[1..i]) == Some(vnode) && FirstChild(nodes, vnode, path[i]).None?)
  }

  lemma WalkingStep(nodes: seq<Vnode>, path: seq<int>, i: nat, vnode: nat, next: nat)
    requires Ordered(nodes) && |nodes| > 0
    requires Walking(nodes, path, i, vnode, Some(next)) && i < |path| - 1
    ensures next < |nodes| && Walking(nodes, path, i + 1, next, FirstChild(nodes, next, path[i + 1]))
  {
    WalkStep(nodes, path, i + 1);
  }

  /** The `for` loop of `Vlink::Vlink`: a new vnode for each remaining
      device, each the child of the one before. It stops at the first
      device that does not exist or has no port from the device before. */
  method AppendRest(nodes0: seq<Vnode>, path: seq<int>, i0: nat, vnode0: nat, devices: map<int, seq<Port>>)
    returns (r: Result<(seq<Vnode>, nat), BuildError>)
    requires Good(nodes0, devices) && 1 <= i0 < |path| && vnode0 < |nodes0| && nodes0[0].device == path[0]
    requires Walk(nodes0, 0, path[1..i0]) == Some(vnode0) && FirstChild(nodes0, vnode0, path[i0]).None?
    ensures r.Success? <==> HopsFrom(devices, path, i0)
    ensures r.Failure? ==> exists i :: (i0 <= i < |path| && !HasPortFrom(devices, path[i], path[i - 1]) &&
      r.error == (if path[i] in devices then NoInPort else UnknownDevice))
    ensures r.Success? ==>
      var (nodes, leaf) := r.value;
      Good(nodes, devices) && Extends(nodes0, nodes) &&
      PathEnd(nodes, path) == Some(leaf) && nodes[leaf].device == Last(path) &&
      LabelsIn(nodes, |nodes0|, path[1..])
  {
    var nodes := nodes0;
    var i: nat := i0;
    var vnode: nat := vnode0;
    WalkDevice(nodes0, 0, path[1..i0]);
    while i < |path|
      invariant Appending(nodes0, nodes, path, i0, i, vnode, devices)
    {
      var x := NewVnode(devices, path[i], vnode, nodes[vnode].device);
      if x.Failure? {
        return Failure(x.error);
      }
      AppendRound(nodes0, nodes, path, i0, i, vnode, x.value, devices);
      var child := |nodes|;
      nodes := Attach(nodes, vnode, x.value);
      vnode := child;
      i := i + 1;
    }
    WalkWhole(nodes, path, i);
    return Success((nodes, vnode));
  }

  /** The state of the `for` loop: the vnodes so far extend the tree, the
      walk along path[1..i] reaches vnode, the hops before i had an input
      port, and every new vnode lies on the path. */
  ghost predicate Appending(nodes0: seq<Vnode>, nodes: seq<Vnode>, path: seq<int>, i0: nat, i: nat, vnode: nat,
                            devices: map<int, seq<Port>>)
  {
    1 <= i0 <= i <= |path| && Good(nodes, devices) && Extends(nodes0, nodes) &&
    vnode < |nodes| && Walk(nodes, 0, path[1..i]) == Some(vnode) && nodes[vnode].device == path[i - 1] &&
    (i < |path| ==> FirstChild(nodes, vnode, path[i]).None?) &&
    HopsBetween(devices, path, i0, i) && LabelsIn(nodes, |nodes0|, path[1..])
  }

  /** One round of the `for` loop keeps its state. */
  lemma AppendRound(nodes0: seq<Vnode>, nodes: seq<Vnode>, path: seq<int>, i0: nat, i: nat, v: nat, x: Vnode,
                    devices: map<int, seq<Port>>)
    requires Appending(nodes0, nodes, path, i0, i, v, devices) && i < |path|
    requires Leaf(x, v) && x.device == path[i] && InPortOk(x, devices, nodes[v].device)
    requires HasPortFrom(devices, path[i], nodes[v].device)
    ensures Appending(nodes0, Attach(nodes, v, x), path, i0, i + 1, |nodes|, devices)
  {
    AppendStep(nodes0, nodes, path, i, v, x, devices);
    AppendLabels(|nodes0|, nodes, path, i, v, x);
    HopsStep(devices, path, i0, i);
    assert Attach(nodes, v, x)[|nodes|] == x;
  }

  lemma HopsStep(devices: map<int, seq<Port>>, path: seq<int>, i0: nat, i: nat)
    requires 1 <= i < |path| && HopsBetween(devices, path, i0, i) && HasPortFrom(devices, path[i], path[i - 1])
    ensures HopsBetween(devices, path, i0, i + 1)
  {
  }

  /** The new leaf's label continues the path, and the labels of the
      vnodes already there do not change. */
  lemma AppendLabels(n0: nat, nodes: seq<Vnode>, path: seq<int>, i: nat, v: nat, x: Vnode)
    requires Wf(nodes) && 1 <= i < |path| && v < |nodes| && n0 <= |nodes|
    requires Walk(nodes, 0, path[1..i]) == Some(v) && Leaf(x, v) && x.device == path[i]
    requires LabelsIn(nodes, n0, path[1..])
    ensures ParentsBefore(Attach(nodes, v, x)) && LabelsIn(Attach(nodes, v, x), n0, path[1..])
  {
    var m := Attach(nodes, v, x);
    AttachParents(nodes, v, x);
    NewLeafLabel(nodes, path, i, v, x);
    forall w | n0 <= w < |m|
      ensures Label(m, w) <= path[1..]
    {
      if w < |nodes| {
        OldLabel(nodes, v, x, w);
      }
    }
  }

  lemma OldLabel(nodes: seq<Vnode>, v: nat, x: Vnode, w: nat)
    requires Wf(nodes) && v < |nodes| && Leaf(x, v) && w < |nodes|
    ensures ParentsBefore(Attach(nodes, v, x)) && Label(Attach(nodes, v, x), w) == Label(nodes, w)
  {
    AttachParents(nodes, v, x);
    AttachExtends(nodes, v, x);
    LabelExtends(nodes, Attach(nodes, v, x), w);
  }

  lemma NewLeafLabel(nodes: seq<Vnode>, path: seq<int>, i: nat, v: nat, x: Vnode)
    requires Wf(nodes) && 1 <= i < |path| && v < |nodes|
    requires Walk(nodes, 0, path[1..i]) == Some(v) && Leaf(x, v) && x.device == path[i]
    ensures ParentsBefore(Attach(nodes, v, x)) && Label(Attach(nodes, v, x), |nodes|) <= path[1..]
  {
    WalkLabel(nodes, path[1..i]);
    LeafLabel(nodes, v, x);
    SnocPrefix(path, i);
  }

  /** The label of a leaf hung under v is v's label and the leaf's device. */
  lemma LeafLabel(nodes: seq<Vnode>, v: nat, x: Vnode)
    requires Wf(nodes) && v < |nodes| && Leaf(x, v)
    ensures ParentsBefore(Attach(nodes, v, x))
    ensures Label(Attach(nodes, v, x), |nodes|) == Label(nodes, v) + [x.device]
  {
    OldLabel(nodes, v, x, v);
    assert Attach(nodes, v, x)[|nodes|] == x;
  }

  lemma SnocPrefix(path: seq<int>, i: nat)
    requires 1 <= i < |path|
    ensures path[1..i] + [path[i]] <= path[1..]
  {
    assert path[1..i] + [path[i]] == path[1..i + 1];
  }

  /** One round of the appending loop: the new leaf continues the walk
      and the invariant still holds. */
  lemma AppendStep(nodes0: seq<Vnode>, nodes: seq<Vnode>, path: seq<int>, i: nat, v: nat, x: Vnode,
                   devices: map<int, seq<Port>>)
    requires Good(nodes, devices) && Extends(nodes0, nodes) && 1 <= i < |path| && v < |nodes|
    requires Walk(nodes, 0, path[1..i]) == Some(v) && FirstChild(nodes, v, path[i]).None?
    requires Leaf(x, v) && x.device == path[i] && InPortOk(x, devices, nodes[v].device)
    ensures Good(Attach(nodes, v, x), devices) && Extends(nodes0, Attach(nodes, v, x))
    ensures Walk(Attach(nodes, v, x), 0, path[1..i + 1]) == Some(|nodes|)
    ensures i + 1 < |path| ==> FirstChild(Attach(nodes, v, x), |nodes|, path[i + 1]).None?
  {
    var m := Attach(nodes, v, x);
    AttachGood(nodes, v, x, devices);
    WalkExtends(nodes, m, 0, path[1..i]);
    ExtendsTrans(nodes0, nodes, m);
    WalkStep(m, path, i);
  }

  /** Where the walk stops, the rest of the path is not in the tree. */
  lemma NotPresent(nodes: seq<Vnode>, path: seq<int>, i: nat)
    requires Ordered(nodes) && |nodes| > 0 && 1 <= i < |path|
    requires Walk(nodes, 0, path[1..i]).Some?
    requires FirstChild(nodes, Walk(nodes, 0, path[1..i]).value, path[i]).None?
    ensures PathEnd(nodes, path).None?
  {
    SplitPath(path, i);
    WalkStuck(nodes, path[1..i], path[i], path[i + 1..]);
  }

  lemma SplitPath(path: seq<int>, i: nat)
    requires 1 <= i < |path|
    ensures path[1..] == (path[1..i] + [path[i]]) + path[i + 1..]
  {
  }

  /** A walk that finds no child at some step fails, whatever follows. */
  lemma WalkStuck(nodes: seq<Vnode>, ds: seq<int>, d: int, es: seq<int>)
    requires Ordered(nodes) && |nodes| > 0 && Walk(nodes, 0, ds).Some?
    requires FirstChild(nodes, Walk(nodes, 0, ds).value, d).None?
    ensures Walk(nodes, 0, (ds + [d]) + es).None?
  {
    WalkSnoc(nodes, 0, ds, d);
    if Walk(nodes, 0, (ds + [d]) + es).Some? {
      WalkPrefix(nodes, 0, ds + [d], es);
    }
  }

  /** The walk over the first i devices after the source, one step on. */
  lemma WalkStep(nodes: seq<Vnode>, path: seq<int>, i: nat)
    requires Ordered(nodes) && |nodes| > 0 && 1 <= i < |path|
    ensures Walk(nodes, 0, path[1..i + 1]) ==
      if Walk(nodes, 0, path[1..i]).Some? then FirstChild(nodes, Walk(nodes, 0, path[1..i]).value, path[i]) else None
  {
    SnocPath(path, i);
    WalkSnoc(nodes, 0, path[1..i], path[i]);
  }

  lemma SnocPath(path: seq<int>, i: nat)
    requires 1 <= i < |path|
    ensures path[1..i + 1] == path[1..i] + [path[i]]
  {
  }

  /** The walk over all devices after the source is the path's end, on
      the path's last device. */
  lemma WalkWhole(nodes: seq<Vnode>, path: seq<int>, j: nat)
    requires Ordered(nodes) && |nodes| > 0 && |path| >= 1 && j == |path|
    ensures Walk(nodes, 0, path[1..j]) == PathEnd(nodes, path)
    ensures |path| >= 2 && PathEnd(nodes, path).Some? ==>
      nodes[PathEnd(nodes, path).value].device == Last(path)
  {
    assert path[1..|path|] == path[1..];
    if |path| >= 2 && PathEnd(nodes, path).Some? {
      WalkDevice(nodes, 0, path[1..]);
    }
  }

  // ---------------------------------------------------------------------
  // Vlink::Vlink

  /** A path is in the tree: it starts at the root's device, has at least
      one hop, and walking it from the root ends on its last device. */
  ghost predicate Present(nodes: seq<Vnode>, path: seq<int>)
    requires Ordered(nodes) && |nodes| > 0
  {
    |path| >= 2 && path[0] == nodes[0].device && PathEnd(nodes, path).Some? &&
    nodes[PathEnd(nodes, path).value].device == Last(path)
  }

  ghost predicate AllPresent(nodes: seq<Vnode>, ps: seq<seq<int>>)
    requires Ordered(nodes) && |nodes| > 0
  {
    forall k :: 0 <= k < |ps| ==> Present(nodes, ps[k])
  }

  /** Entries stored into a map in order, as `dst[id] = vnode` does: a
      later entry overwrites an earlier one with the same key. */
  function Assign(es: seq<(int, nat)>): map<int, nat>
    decreases |es|
  {
    if es == [] then map[] else Assign(es[..|es| - 1])[es[|es| - 1].0 := es[|es| - 1].1]
  }

  /** The keys of the map are the keys of the entries. */
  lemma {:induction false} AssignKeys(es: seq<(int, nat)>, d: int)
    ensures d in Assign(es) <==> exists k :: 0 <= k < |es| && es[k].0 == d
    decreases |es|
  {
    if es != [] {
      var n := |es| - 1;
      var fs := es[..n];
      AssignKeys(fs, d);
      if exists k :: 0 <= k < |es| && es[k].0 == d {
        var k :| 0 <= k < |es| && es[k].0 == d;
        if k < n {
          assert fs[k] == es[k];
        }
      }
      if d in Assign(fs) {
        var k :| 0 <= k < |fs| && fs[k].0 == d;
        assert fs[k] == es[k];
      }
    }
  }

  /** A key maps to the value of its last entry. */
  lemma {:induction false} AssignAt(es: seq<(int, nat)>, k: nat)
    requires k < |es| && forall k' :: k < k' < |es| ==> es[k'].0 != es[k].0
    ensures es[k].0 in Assign(es) && Assign(es)[es[k].0] == es[k].1
    decreases |es|
  {
    var n := |es| - 1;
    if k < n {
      var fs := es[..n];
      assert forall k' :: k <= k' < |fs| ==> fs[k'] == es[k'];
      AssignAt(fs, k);
    }
  }

  lemma AssignSnoc(es: seq<(int, nat)>, e: (int, nat))
    ensures Assign(es + [e]) == Assign(es)[e.0 := e.1]
  {
    assert (es + [e])[..|es|] == es;
  }

  /** For each inserted path, its last device and the node it ends on. */
  ghost function Ends(nodes: seq<Vnode>, ps: seq<seq<int>>): (r: seq<(int, nat)>)
    requires Ordered(nodes) && |nodes| > 0 && AllPresent(nodes, ps)
    ensures |r| == |ps|
  {
    seq(|ps|, k requires 0 <= k < |ps| => (Last(ps[k]), PathEnd(nodes, ps[k]).value))
  }

  /** `dst` once the paths ps are inserted in order. */
  ghost function Dst(nodes: seq<Vnode>, ps: seq<seq<int>>): map<int, nat>
    requires Ordered(nodes) && |nodes| > 0 && AllPresent(nodes, ps)
  {
    Assign(Ends(nodes, ps))
  }

  /** No path is a prefix of an earlier one, among the first j. */
  ghost predicate NoPrefix(paths: seq<seq<int>>, j: nat)
    requires j <= |paths|
  {
    forall k, k' :: 0 <= k < k' < j ==> !(paths[k'] <= paths[k])
  }

  /** What the loop of `Vlink::Vlink` has built after the first j paths. */
  ghost predicate Built(nodes: seq<Vnode>, dst: map<int, nat>, paths: seq<seq<int>>, j: nat,
                        devices: map<int, seq<Port>>)
    requires j <= |paths| && paths != [] && paths[0] != []
  {
    Good(nodes, devices) && nodes[0].device == paths[0][0] &&
    AllPresent(nodes, paths[..j]) && dst == Dst(nodes, paths[..j]) && NoPrefix(paths, j)
  }

  /** What a successful `Vlink::Vlink` leaves. */
  ghost predicate BuiltFrom(vl: Vlink, id: int, paths: seq<seq<int>>, devices: map<int, seq<Port>>)
    requires paths != [] && paths[0] != []
  {
    vl.id == id && Built(vl.nodes, vl.dst, paths, |paths|, devices)
  }

  /** A path the loop of `Vlink::Vlink` can take: it starts at the source
      and each of its devices has a port from the device before it. */
  predicate Insertable(devices: map<int, seq<Port>>, src: int, path: seq<int>) {
    path != [] && path[0] == src && HopsFrom(devices, path, 1)
  }

  /** What `Vlink::Vlink` needs to get through all its `assert`s: a first
      path with at least one hop from a known source, every path from that
      source with an input port at each hop, and no path a prefix of an
      earlier one. */
  ghost predicate Buildable(paths: seq<seq<int>>, sources: set<int>, devices: map<int, seq<Port>>) {
    paths != [] && |paths[0]| >= 2 && paths[0][0] in sources &&
    (forall k :: 0 <= k < |paths| ==> Insertable(devices, paths[0][0], paths[k])) &&
    NoPrefix(paths, |paths|)
  }

  /** `Vlink::Vlink`: the root from the first path's source, then each
      path inserted in turn. The C++ `assert`s become the errors. */
  method BuildVlink(id: int, paths: seq<seq<int>>, sources: set<int>, devices: map<int, seq<Port>>)
    returns (r: Result<Vlink, BuildError>)
    ensures r.Success? <==> Buildable(paths, sources, devices)
    ensures (r.Failure? && r.error == NoPaths) <==> (paths == [] || |paths[0]| < 2)
    ensures paths != [] && |paths[0]| >= 2 && paths[0][0] !in sources ==> r == Failure(UnknownDevice)
    ensures (exists k, k' :: 0 <= k < k' < |paths| && paths[k'] <= paths[k]) ==> r.Failure?
    ensures r.Success? ==> paths != [] && paths[0] != [] && BuiltFrom(r.value, id, paths, devices)
  {
    if paths == [] || |paths[0]| < 2 {
      return Failure(NoPaths);
    }
    var root := NewRoot(sources, paths[0][0]);
    if root.Failure? {
      return Failure(root.error);
    }
    var nodes := [root.value];
    var dst: map<int, nat> := map[];
    RootBuilt(root.value, paths, devices);
    var j := 0;
    while j < |paths|
      invariant j <= |paths| && Built(nodes, dst, paths, j, devices) && Covered(nodes, paths, j)
      invariant InsertableUpTo(devices, paths, j)
    {
      var step := InsertPath(nodes, dst, paths[j], devices);
      if step.Failure? {
        InsertFailed(nodes, dst, paths, j, sources, devices);
        return Failure(step.error);
      }
      InsertStep(nodes, dst, step.value.0, step.value.1, paths, j, devices);
      CoveredStep(nodes, step.value.0, paths, j);
      InsertableStep(devices, paths, j);
      nodes, dst := step.value.0, step.value.1;
      j := j + 1;
    }
    AllInserted(nodes, dst, paths, sources, devices);
    return Success(Vlink(id, nodes, dst));
  }

  /** The first j paths can all be taken. */
  predicate InsertableUpTo(devices: map<int, seq<Port>>, paths: seq<seq<int>>, j: nat)
    requires paths != [] && paths[0] != [] && j <= |paths|
  {
    forall k :: 0 <= k < j ==> Insertable(devices, paths[0][0], paths[k])
  }

  lemma InsertableStep(devices: map<int, seq<Port>>, paths: seq<seq<int>>, j: nat)
    requires paths != [] && paths[0] != [] && j < |paths| && InsertableUpTo(devices, paths, j)
    requires Insertable(devices, paths[0][0], paths[j])
    ensures InsertableUpTo(devices, paths, j + 1)
  {
  }

  /** Once every path is in, the paths were buildable. */
  lemma AllInserted(nodes: seq<Vnode>, dst: map<int, nat>, paths: seq<seq<int>>,
                    sources: set<int>, devices: map<int, seq<Port>>)
    requires paths != [] && |paths[0]| >= 2 && paths[0][0] in sources
    requires Built(nodes, dst, paths, |paths|, devices) && InsertableUpTo(devices, paths, |paths|)
    ensures Buildable(paths, sources, devices)
  {
  }

  /** Every vnode but the root lies on one of the first j paths: the
      root's device followed by its label is a prefix of that path. */
  ghost predicate Covered(nodes: seq<Vnode>, paths: seq<seq<int>>, j: nat)
    requires ParentsBefore(nodes) && |nodes| > 0 && j <= |paths|
  {
    forall v :: 0 < v < |nodes| ==> exists k :: 0 <= k < j && [nodes[0].device] + Label(nodes, v) <= paths[k]
  }

  /** Inserting path j keeps every vnode on some path. */
  lemma CoveredStep(nodes: seq<Vnode>, nodes': seq<Vnode>, paths: seq<seq<int>>, j: nat)
    requires ParentsBefore(nodes) && ParentsBefore(nodes') && |nodes| > 0 && Extends(nodes, nodes')
    requires j < |paths| && Covered(nodes, paths, j)
    requires paths[j] != [] && paths[j][0] == nodes[0].device && LabelsIn(nodes', |nodes|, paths[j][1..])
    ensures Covered(nodes', paths, j + 1)
  {
    forall v | 0 < v < |nodes'|
      ensures exists k :: 0 <= k < j + 1 && [nodes'[0].device] + Label(nodes', v) <= paths[k]
    {
      if v < |nodes| {
        LabelExtends(nodes, nodes', v);
        var k :| 0 <= k < j && [nodes[0].device] + Label(nodes, v) <= paths[k];
        assert [nodes'[0].device] + Label(nodes', v) <= paths[k];
      } else {
        ConsPrefix(nodes[0].device, Label(nodes', v), paths[j]);
      }
    }
  }

  lemma ConsPrefix(a: int, ds: seq<int>, q: seq<int>)
    requires q != [] && q[0] == a && ds <= q[1..]
    ensures [a] + ds <= q
  {
    assert q == [a] + q[1..];
  }

  /** In a tree whose vnodes all lie on the first j paths, a path from the
      root that can be walked to its end is a prefix of one of them. */
  lemma PresentIsPrefix(nodes: seq<Vnode>, paths: seq<seq<int>>, j: nat, p: seq<int>)
    requires Wf(nodes) && j <= |paths| && Covered(nodes, paths, j)
    requires paths != [] && paths[0] != [] && paths[0][0] == nodes[0].device
    requires p != [] && p[0] == nodes[0].device && (j > 0 || |p| >= 2)
    requires PathEnd(nodes, p).Some?
    ensures exists k :: 0 <= k < j && p <= paths[k]
  {
    var v := PathEnd(nodes, p).value;
    WalkLabel(nodes, p[1..]);
    assert p == [nodes[0].device] + Label(nodes, v);
    if v == 0 {
      assert p <= paths[0];
    } else {
      var k :| 0 <= k < j && [nodes[0].device] + Label(nodes, v) <= paths[k];
    }
  }

  /** When path j cannot be inserted, the paths were not buildable. */
  lemma InsertFailed(nodes: seq<Vnode>, dst: map<int, nat>, paths: seq<seq<int>>, j: nat,
                     sources: set<int>, devices: map<int, seq<Port>>)
    requires paths != [] && |paths[0]| >= 2 && j < |paths| && Built(nodes, dst, paths, j, devices)
    requires Covered(nodes, paths, j)
    requires !(paths[j] != [] && paths[j][0] == nodes[0].device && PathEnd(nodes, paths[j]).None? &&
               HopsFrom(devices, paths[j], 1))
    ensures !Buildable(paths, sources, devices)
  {
    if paths[j] != [] && paths[j][0] == nodes[0].device && PathEnd(nodes, paths[j]).Some? {
      PresentIsPrefix(nodes, paths, j, paths[j]);
      var k :| 0 <= k < j && paths[j] <= paths[k];
      assert !NoPrefix(paths, |paths|);
    } else {
      assert !Insertable(devices, paths[0][0], paths[j]);
    }
  }

  lemma RootBuilt(x: Vnode, paths: seq<seq<int>>, devices: map<int, seq<Port>>)
    requires paths != [] && paths[0] != [] && x == Vnode(paths[0][0], -1, [], None, -1)
    ensures Built([x], map[], paths, 0, devices)
  {
    assert TreeSize([x], 0) == 1 + SizeSum([x], [], 0);
  }

  /** One round of the loop over the paths keeps `Built`. */
  lemma InsertStep(nodes: seq<Vnode>, dst: map<int, nat>, nodes': seq<Vnode>, dst': map<int, nat>,
                   paths: seq<seq<int>>, j: nat, devices: map<int, seq<Port>>)
    requires paths != [] && paths[0] != [] && j < |paths| && Built(nodes, dst, paths, j, devices)
    requires paths[j] != [] && paths[j][0] == nodes[0].device && PathEnd(nodes, paths[j]).None?
    requires Good(nodes', devices) && Extends(nodes, nodes') && |paths[j]| >= 2
    requires PathEnd(nodes', paths[j]).Some? && nodes'[PathEnd(nodes', paths[j]).value].device == Last(paths[j])
    requires dst' == dst[Last(paths[j]) := PathEnd(nodes', paths[j]).value]
    ensures Built(nodes', dst', paths, j + 1, devices)
  {
    AllPresentExtends(nodes, nodes', paths[..j]);
    DstExtends(nodes, nodes', paths[..j]);
    DstSnoc(nodes', paths, j);
    NoPrefixStep(nodes, paths, j);
  }

  /** Appending a path to the inserted ones. */
  lemma DstSnoc(nodes: seq<Vnode>, paths: seq<seq<int>>, j: nat)
    requires Ordered(nodes) && |nodes| > 0 && j < |paths|
    requires AllPresent(nodes, paths[..j]) && Present(nodes, paths[j])
    ensures AllPresent(nodes, paths[..j + 1])
    ensures Dst(nodes, paths[..j + 1]) == Dst(nodes, paths[..j])[Last(paths[j]) := PathEnd(nodes, paths[j]).value]
  {
    AllPresentSnoc(nodes, paths, j);
    var e := (Last(paths[j]), PathEnd(nodes, paths[j]).value);
    EndsSnoc(nodes, paths, j);
    AssignSnoc(Ends(nodes, paths[..j]), e);
  }

  lemma EndsSnoc(nodes: seq<Vnode>, paths: seq<seq<int>>, j: nat)
    requires Ordered(nodes) && |nodes| > 0 && j < |paths|
    requires AllPresent(nodes, paths[..j]) && Present(nodes, paths[j]) && AllPresent(nodes, paths[..j + 1])
    ensures Ends(nodes, paths[..j + 1]) == Ends(nodes, paths[..j]) + [(Last(paths[j]), PathEnd(nodes, paths[j]).value)]
  {
    var ps, qs := paths[..j + 1], paths[..j];
    assert forall k :: 0 <= k < j ==> ps[k] == qs[k];
    assert ps[j] == paths[j];
  }

  lemma AllPresentSnoc(nodes: seq<Vnode>, paths: seq<seq<int>>, j: nat)
    requires Ordered(nodes) && |nodes| > 0 && j < |paths|
    requires AllPresent(nodes, paths[..j]) && Present(nodes, paths[j])
    ensures AllPresent(nodes, paths[..j + 1])
  {
    var ps := paths[..j + 1];
    forall k | 0 <= k < |ps|
      ensures Present(nodes, ps[k])
    {
      if k < j {
        assert ps[k] == paths[..j][k];
      }
    }
  }

  /** A path that was not in the tree is no prefix of an inserted one. */
  lemma NoPrefixStep(nodes: seq<Vnode>, paths: seq<seq<int>>, j: nat)
    requires Ordered(nodes) && |nodes| > 0 && j < |paths| && NoPrefix(paths, j)
    requires AllPresent(nodes, paths[..j]) && paths[j] != [] && PathEnd(nodes, paths[j]).None?
    ensures NoPrefix(paths, j + 1)
  {
    forall k | 0 <= k < j
      ensures !(paths[j] <= paths[k])
    {
      assert paths[..j][k] == paths[k];
      if paths[j] <= paths[k] {
        PrefixPresent(nodes, paths[j], paths[k]);
      }
    }
  }

  /** A non-empty prefix of a path in the tree is in the tree. */
  lemma PrefixPresent(nodes: seq<Vnode>, p: seq<int>, q: seq<int>)
    requires Ordered(nodes) && |nodes| > 0 && Present(nodes, q) && p != [] && p <= q
    ensures PathEnd(nodes, p).Some?
  {
    assert q[1..] == p[1..] + q[|p|..];
    WalkPrefix(nodes, 0, p[1..], q[|p|..]);
  }

  /** Growing the tree keeps a path that is in it, and where it ends. */
  lemma PresentExtends(a: seq<Vnode>, b: seq<Vnode>, p: seq<int>)
    requires Ordered(a) && Ordered(b) && |a| > 0 && Extends(a, b) && Present(a, p)
    ensures Present(b, p) && PathEnd(b, p) == PathEnd(a, p)
  {
    WalkExtends(a, b, 0, p[1..]);
    assert b[PathEnd(a, p).value].device == a[PathEnd(a, p).value].device;
  }

  lemma AllPresentExtends(a: seq<Vnode>, b: seq<Vnode>, ps: seq<seq<int>>)
    requires Ordered(a) && Ordered(b) && |a| > 0 && Extends(a, b) && AllPresent(a, ps)
    ensures AllPresent(b, ps)
  {
    forall k | 0 <= k < |ps|
      ensures Present(b, ps[k])
    {
      PresentExtends(a, b, ps[k]);
    }
  }

  lemma AllPresentPrefix(nodes: seq<Vnode>, ps: seq<seq<int>>, n: nat)
    requires Ordered(nodes) && |nodes| > 0 && AllPresent(nodes, ps) && n <= |ps|
    ensures AllPresent(nodes, ps[..n])
  {
    assert forall k :: 0 <= k < n ==> ps[..n][k] == ps[k];
  }

  /** Growing the tree keeps every `dst` entry. */
  lemma DstExtends(a: seq<Vnode>, b: seq<Vnode>, ps: seq<seq<int>>)
    requires Ordered(a) && Ordered(b) && |a| > 0 && Extends(a, b) && AllPresent(a, ps) && AllPresent(b, ps)
    ensures Dst(b, ps) == Dst(a, ps)
  {
    forall k | 0 <= k < |ps|
      ensures Ends(b, ps)[k] == Ends(a, ps)[k]
    {
      PresentExtends(a, b, ps[k]);
    }
    assert Ends(b, ps) == Ends(a, ps);
  }

  /** The keys of `dst` are the last devices of the paths. */
  lemma DstKeys(nodes: seq<Vnode>, ps: seq<seq<int>>, d: int)
    requires Ordered(nodes) && |nodes| > 0 && AllPresent(nodes, ps)
    ensures d in Dst(nodes, ps) <==> exists k :: 0 <= k < |ps| && Last(ps[k]) == d
  {
    var es := Ends(nodes, ps);
    AssignKeys(es, d);
    assert forall k :: 0 <= k < |ps| ==> es[k].0 == Last(ps[k]);
  }

  /** The entry of a device in `dst` is the end of the last path to it. */
  lemma DstAt(nodes: seq<Vnode>, ps: seq<seq<int>>, k: nat)
    requires Ordered(nodes) && |nodes| > 0 && AllPresent(nodes, ps) && k < |ps|
    requires forall k' :: k < k' < |ps| ==> Last(ps[k']) != Last(ps[k])
    ensures Last(ps[k]) in Dst(nodes, ps) && Dst(nodes, ps)[Last(ps[k])] == PathEnd(nodes, ps[k]).value
  {
    var es := Ends(nodes, ps);
    assert forall k' :: 0 <= k' < |ps| ==> es[k'].0 == Last(ps[k']);
    AssignAt(es, k);
  }
}
