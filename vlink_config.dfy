/** The configuration the delay computation works on (algo.h:30-159):
    virtual links, devices and sources by id, the port tables, and the
    operations over them that are pure lookups or walks: the keyed getters
    and `getAll*`, `calcChainMaxSize` (algo.cpp:11-19) and
    `Device::fromOutPort` (algo.cpp:28-42). Pointers between objects
    become ids: a vnode is named by its virtual link's id and its index in
    that link's nodes. */
module Network {
  import opened Wrappers
  import opened VlinkTree
  import OrderedMap

  /** `Device::Type`. */
  datatype DeviceType = Src | Switch | Dst

  /** A device: its id, its type and its input ports in the order they
      were appended. */
  datatype Device = Device(id: int, kind: DeviceType, ports: seq<Port>)

  /** The position of the first port with the given id. */
  function FindPort(ports: seq<Port>, portId: int): (r: Option<nat>)
    ensures r.None? <==> forall k :: 0 <= k < |ports| ==> ports[k].id != portId
    ensures r.Some? ==> (r.value < |ports| && ports[r.value].id == portId &&
      forall k :: 0 <= k < r.value ==> ports[k].id != portId)
    decreases |ports|
  {
    if ports == [] then None
    else if ports[0].id == portId then Some(0)
    else
      var r := FindPort(ports[1..], portId);
      assert forall k :: 1 <= k < |ports| ==> ports[k] == ports[1..][k - 1];
      match r
      case None => None
      case Some(k) => Some(k + 1)
  }

  /** `Device::getPort`: the port with that id, which must exist. */
  function GetPort(d: Device, portId: int): (r: Port)
    requires exists k :: 0 <= k < |d.ports| && d.ports[k].id == portId
    ensures r.id == portId && r in d.ports
  {
    d.ports[FindPort(d.ports, portId).value]
  }

  class VlinkConfig {
    var chainMaxSize: int
    var vlinks: map<int, Vlink>
    var devices: map<int, Device>
    var sources: map<int, Device>
    var portDevice: map<int, int>
    var links: map<int, int>

    constructor (vlinks: map<int, Vlink>, devices: map<int, Device>, sources: map<int, Device>,
                 portDevice: map<int, int>, links: map<int, int>)
      ensures this.vlinks == vlinks && this.devices == devices && this.sources == sources
      ensures this.portDevice == portDevice && this.links == links && chainMaxSize == 0
    {
      this.vlinks := vlinks;
      this.devices := devices;
      this.sources := sources;
      this.portDevice := portDevice;
      this.links := links;
      chainMaxSize := 0;
    }

    /** Every virtual link is a tree whose size is its number of vnodes,
        as `Vlink::Vlink` leaves it. */
    ghost predicate Valid()
      reads this
    {
      forall id :: id in vlinks ==> Trees(vlinks[id])
    }

    /** `getVlink`: asserts that the id is present; the link it returns
        is the one `getAllVlinks` lists at the id's rank. */
    function GetVlink(id: int): (r: Vlink)
      reads this
      requires id in vlinks
      ensures r == vlinks[id] && r in OrderedMap.InKeyOrder(vlinks)
    {
      OrderedMap.InKeyOrderAt(vlinks, id);
      vlinks[id]
    }

    /** `getDevice(id, isSource)`: looks in `sources` when `isSource` and
        in `devices` otherwise. */
    function GetDevice(id: int, isSource: bool): (r: Device)
      reads this
      requires id in (if isSource then sources else devices)
      ensures isSource ==> r == sources[id] && r in OrderedMap.InKeyOrder(sources)
      ensures !isSource ==> r == devices[id] && r in OrderedMap.InKeyOrder(devices)
    {
      var m := if isSource then sources else devices;
      OrderedMap.InKeyOrderAt(m, id);
      m[id]
    }

    /** `connectedPort`: the port at the other end of the link. */
    function ConnectedPort(portId: int): (r: int)
      reads this
      requires portId in links
      ensures (portId, r) in links.Items
    {
      links[portId]
    }

    /** `portDevice`: the device owning the port. */
    function PortDevice(portId: int): (r: int)
      reads this
      requires portId in portDevice
      ensures (portId, r) in portDevice.Items
    {
      portDevice[portId]
    }

    method GetAllVlinks() returns (r: seq<Vlink>)
      ensures r == OrderedMap.InKeyOrder(vlinks)
    {
      r := OrderedMap.Values(vlinks);
    }

    method GetAllDevices() returns (r: seq<Device>)
      ensures r == OrderedMap.InKeyOrder(devices)
    {
      r := OrderedMap.Values(devices);
    }

    method GetAllSources() returns (r: seq<Device>)
      ensures r == OrderedMap.InKeyOrder(sources)
    {
      r := OrderedMap.Values(sources);
    }

    /** `calcChainMaxSize`: the sum over the virtual links of
        `treeSize(src) - 1`, which is the number of non-root vnodes. */
    method CalcChainMaxSize()
      requires Valid()
      modifies this
      ensures chainMaxSize == NonRoot(OrderedMap.InKeyOrder(vlinks))
      ensures vlinks == old(vlinks) && devices == old(devices) && sources == old(sources)
      ensures portDevice == old(portDevice) && links == old(links)
    {
      var vls := OrderedMap.Values(vlinks);
      AllTrees(vlinks);
      chainMaxSize := SumChains(vls);
    }
  }

  /** The loop of `calcChainMaxSize`, adding `treeSize(src) - 1` for each
      virtual link. */
  method SumChains(vls: seq<Vlink>) returns (s: int)
    requires forall i :: 0 <= i < |vls| ==> Trees(vls[i])
    ensures s == NonRoot(vls)
  {
    s := 0;
    for i := 0 to |vls|
      invariant s == NonRoot(vls[..i])
    {
      var size := ComputeTreeSize(vls[i].nodes, 0);
      assert vls[..i + 1][..i] == vls[..i];
      s := s + size - 1;
    }
    assert vls[..|vls|] == vls;
  }

  /** A virtual link's nodes form a tree counted by `treeSize`. */
  ghost predicate Trees(vl: Vlink) {
    Wf(vl.nodes) && TreeSize(vl.nodes, 0) == |vl.nodes|
  }

  /** The number of vnodes other than the roots. */
  function NonRoot(vls: seq<Vlink>): int
    decreases |vls|
  {
    if vls == [] then 0 else NonRoot(vls[..|vls| - 1]) + |vls[|vls| - 1].nodes| - 1
  }

  /** The links `getAllVlinks` lists are trees when the configuration is
      valid. */
  lemma AllTrees(vlinks: map<int, Vlink>)
    requires forall id :: id in vlinks ==> Trees(vlinks[id])
    ensures forall i :: 0 <= i < |vlinks| ==> Trees(OrderedMap.InKeyOrder(vlinks)[i])
  {
    var ks := OrderedMap.SortedKeys(vlinks.Keys);
    forall i | 0 <= i < |vlinks|
      ensures Trees(OrderedMap.InKeyOrder(vlinks)[i])
    {
      OrderedMap.InKeyOrderFrom(vlinks, i);
      var k := ks[i];
      assert k in vlinks;
      assert Trees(vlinks[k]);
      assert OrderedMap.InKeyOrder(vlinks)[i] == vlinks[k];
    }
  }

  /** A virtual link `Vlink::Vlink` built is a tree that `treeSize`
      counts exactly. */
  lemma BuiltTrees(vl: Vlink, id: int, paths: seq<seq<int>>, devices: map<int, seq<Port>>)
    requires paths != [] && paths[0] != [] && BuiltFrom(vl, id, paths, devices)
    ensures Trees(vl)
  {
  }

  // ---------------------------------------------------------------------
  // Device::fromOutPort

  /** The first of cs whose `outPrev` is idx. */
  function FirstOut(nodes: seq<Vnode>, cs: seq<nat>, idx: int): (r: Option<nat>)
    requires forall k :: 0 <= k < |cs| ==> cs[k] < |nodes|
    ensures r.None? <==> forall k :: 0 <= k < |cs| ==> nodes[cs[k]].outPrev != idx
    ensures r.Some? ==> exists k :: (0 <= k < |cs| && cs[k] == r.value && nodes[cs[k]].outPrev == idx &&
      forall k' :: 0 <= k' < k ==> nodes[cs[k']].outPrev != idx)
    decreases |cs|
  {
    if cs == [] then None
    else if nodes[cs[0]].outPrev == idx then Some(cs[0])
    else
      var r := FirstOut(nodes, cs[1..], idx);
      assert forall k :: 1 <= k < |cs| ==> cs[k] == cs[1..][k - 1];
      r
  }

  /** The inner loop of `fromOutPort`, up to its `break`. */
  method SelectOut(nodes: seq<Vnode>, cs: seq<nat>, idx: int) returns (r: Option<nat>)
    requires forall k :: 0 <= k < |cs| ==> cs[k] < |nodes|
    ensures r == FirstOut(nodes, cs, idx)
  {
    var k := 0;
    while k < |cs|
      invariant k <= |cs| && FirstOut(nodes, cs, idx) == FirstOut(nodes, cs[k..], idx)
    {
      if nodes[cs[k]].outPrev == idx {
        return Some(cs[k]);
      }
      assert cs[k..][1..] == cs[k + 1..];
      k := k + 1;
    }
    return None;
  }

  /** The vnode a port stores for a virtual link exists. */
  ghost predicate RefOk(vlinks: map<int, Vlink>, p: Port, vl: int) {
    vl in p.vnodes && vl in vlinks && Ordered(vlinks[vl].nodes) && p.vnodes[vl] < |vlinks[vl].nodes|
  }

  ghost predicate RefsOk(vlinks: map<int, Vlink>, ports: seq<Port>) {
    forall k, vl :: 0 <= k < |ports| && vl in ports[k].vnodes ==> RefOk(vlinks, ports[k], vl)
  }

  /** What the stored vnode of virtual link vl contributes: its first
      child leaving output port idx, if any. */
  ghost function OutOf(vlinks: map<int, Vlink>, p: Port, vl: int, idx: int): seq<(int, nat)>
    requires RefOk(vlinks, p, vl)
  {
    var nodes := vlinks[vl].nodes;
    match FirstOut(nodes, nodes[p.vnodes[vl]].next, idx)
    case None => []
    case Some(c) => [(vl, c)]
  }

  /** The contributions of a port's vnodes for the virtual links ks. */
  ghost function OutOfVnodes(vlinks: map<int, Vlink>, p: Port, ks: seq<int>, idx: int): seq<(int, nat)>
    requires forall i :: 0 <= i < |ks| ==> RefOk(vlinks, p, ks[i])
    decreases |ks|
  {
    if ks == [] then []
    else OutOfVnodes(vlinks, p, ks[..|ks| - 1], idx) + OutOf(vlinks, p, ks[|ks| - 1], idx)
  }

  /** What `fromOutPort(idx)` collects: port by port, and within a port
      by virtual link id. */
  ghost function FromOut(vlinks: map<int, Vlink>, ports: seq<Port>, idx: int): seq<(int, nat)>
    requires RefsOk(vlinks, ports)
    decreases |ports|
  {
    if ports == [] then []
    else
      var p := ports[|ports| - 1];
      var ks := OrderedMap.SortedKeys(p.vnodes.Keys);
      assert RefsOk(vlinks, ports[..|ports| - 1]) by {
        assert forall k :: 0 <= k < |ports| - 1 ==> ports[..|ports| - 1][k] == ports[k];
      }
      FromOut(vlinks, ports[..|ports| - 1], idx) + OutOfVnodes(vlinks, p, ks, idx)
  }

  /** `Device::fromOutPort`. */
  method FromOutPort(vlinks: map<int, Vlink>, d: Device, idx: int) returns (ans: seq<(int, nat)>)
    requires RefsOk(vlinks, d.ports)
    ensures ans == FromOut(vlinks, d.ports, idx)
  {
    ans := [];
    for i := 0 to |d.ports|
      invariant RefsOk(vlinks, d.ports[..i]) && ans == FromOut(vlinks, d.ports[..i], idx)
    {
      var p := d.ports[i];
      var out := FromPort(vlinks, p, idx);
      FromOutSnoc(vlinks, d.ports, i, idx);
      ans := ans + out;
    }
    assert d.ports[..|d.ports|] == d.ports;
  }

  /** The loop over one port's vnodes, in virtual link id order. */
  method FromPort(vlinks: map<int, Vlink>, p: Port, idx: int) returns (out: seq<(int, nat)>)
    requires forall vl :: vl in p.vnodes ==> RefOk(vlinks, p, vl)
    ensures out == OutOfVnodes(vlinks, p, OrderedMap.SortedKeys(p.vnodes.Keys), idx)
  {
    var ks := OrderedMap.SortKeys(p.vnodes.Keys);
    out := [];
    for j := 0 to |ks|
      invariant out == OutOfVnodes(vlinks, p, ks[..j], idx)
    {
      var vl := ks[j];
      var nodes := vlinks[vl].nodes;
      var c := SelectOut(nodes, nodes[p.vnodes[vl]].next, idx);
      assert ks[..j + 1][..j] == ks[..j];
      if c.Some? {
        out := out + [(vl, c.value)];
      }
    }
    assert ks[..|ks|] == ks;
  }

  lemma FromOutSnoc(vlinks: map<int, Vlink>, ports: seq<Port>, i: nat, idx: int)
    requires i < |ports| && RefsOk(vlinks, ports)
    ensures RefsOk(vlinks, ports[..i]) && RefsOk(vlinks, ports[..i + 1])
    ensures FromOut(vlinks, ports[..i + 1], idx) ==
      FromOut(vlinks, ports[..i], idx) +
      OutOfVnodes(vlinks, ports[i], OrderedMap.SortedKeys(ports[i].vnodes.Keys), idx)
  {
    var qs := ports[..i + 1];
    assert qs[..i] == ports[..i] && qs[i] == ports[i];
    assert forall k :: 0 <= k < i + 1 ==> qs[k] == ports[k];
  }

  /** The child `fromOutPort` takes from the stored vnode of vl. */
  ghost predicate Collected(vlinks: map<int, Vlink>, p: Port, vl: int, idx: int, c: nat)
    requires RefOk(vlinks, p, vl)
  {
    var nodes := vlinks[vl].nodes;
    FirstOut(nodes, nodes[p.vnodes[vl]].next, idx) == Some(c)
  }

  lemma {:induction false} OutOfVnodesHas(vlinks: map<int, Vlink>, p: Port, ks: seq<int>, idx: int, vl: int, c: nat)
    requires forall i :: 0 <= i < |ks| ==> RefOk(vlinks, p, ks[i])
    ensures (vl, c) in OutOfVnodes(vlinks, p, ks, idx) <==> vl in ks && Collected(vlinks, p, vl, idx, c)
    decreases |ks|
  {
    if ks != [] {
      var n := |ks| - 1;
      assert forall i :: 0 <= i < n ==> ks[..n][i] == ks[i];
      OutOfVnodesHas(vlinks, p, ks[..n], idx, vl, c);
      assert ks == ks[..n] + [ks[n]];
    }
  }

  /** Some port stores a vnode of vl whose first child leaving output
      port idx is c. */
  ghost predicate Stores(vlinks: map<int, Vlink>, ports: seq<Port>, idx: int, vl: int, c: nat)
    requires RefsOk(vlinks, ports)
  {
    exists k :: 0 <= k < |ports| && vl in ports[k].vnodes && Collected(vlinks, ports[k], vl, idx, c)
  }

  lemma StoresSnoc(vlinks: map<int, Vlink>, ports: seq<Port>, n: nat, idx: int, vl: int, c: nat)
    requires RefsOk(vlinks, ports) && n == |ports| - 1 && RefsOk(vlinks, ports[..n])
    ensures Stores(vlinks, ports, idx, vl, c) <==>
      Stores(vlinks, ports[..n], idx, vl, c) || (vl in ports[n].vnodes && Collected(vlinks, ports[n], vl, idx, c))
  {
    if Stores(vlinks, ports, idx, vl, c) {
      var k :| 0 <= k < |ports| && vl in ports[k].vnodes && Collected(vlinks, ports[k], vl, idx, c);
      if k < n {
        assert ports[..n][k] == ports[k];
      }
    }
    if Stores(vlinks, ports[..n], idx, vl, c) {
      var k :| 0 <= k < n && vl in ports[..n][k].vnodes && Collected(vlinks, ports[..n][k], vl, idx, c);
      assert ports[..n][k] == ports[k];
    }
  }

  /** `fromOutPort(idx)` lists a pair (vl, c) exactly when some port of
      the device stores a vnode of vl whose first child leaving output
      port idx is c. */
  lemma {:induction false} FromOutHas(vlinks: map<int, Vlink>, ports: seq<Port>, idx: int, vl: int, c: nat)
    requires RefsOk(vlinks, ports)
    ensures (vl, c) in FromOut(vlinks, ports, idx) <==> Stores(vlinks, ports, idx, vl, c)
    decreases |ports|
  {
    if ports != [] {
      var n := |ports| - 1;
      var p := ports[n];
      var ks := OrderedMap.SortedKeys(p.vnodes.Keys);
      FromOutSnoc(vlinks, ports, n, idx);
      assert ports[..n + 1] == ports;
      FromOutHas(vlinks, ports[..n], idx, vl, c);
      OutOfVnodesHas(vlinks, p, ks, idx, vl, c);
      if vl in p.vnodes {
        OrderedMap.SortedKeysHas(p.vnodes.Keys, vl);
      }
      StoresSnoc(vlinks, ports, n, idx, vl, c);
    }
  }
}
