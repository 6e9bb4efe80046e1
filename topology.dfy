/** The network document shared by the converter (convertformat.py) and the
    C++ reader (configio.cpp), abstracted from XML into records: one record
    per `endSystem`, `switch`, `link`, `virtualLink` and `path` element, with
    comma-separated attributes already split into lists of integers. An
    attribute that `int()` or `std::stoi` cannot read is represented by an
    empty list where the source would fail on it. */
module Topology {
  import opened Wrappers

  /** An `endSystem` or `switch` element: its `number` and `ports`. */
  datatype DeviceRec = DeviceRec(number: int, ports: seq<int>)

  /** A `link` element; `multi` is None when the attribute is absent. */
  datatype LinkRec = LinkRec(from: int, to: int, capacity: int, multi: Option<int>)

  /** A `path` element of a virtual link: its `dest` and its `path` list
      (device ids before conversion, ingress port ids after). */
  datatype PathRec = PathRec(dest: int, hops: seq<int>)

  datatype VirtualLinkRec = VirtualLinkRec(number: int, paths: seq<PathRec>)

  datatype Document = Document(
    endSystems: seq<DeviceRec>,
    switches: seq<DeviceRec>,
    links: seq<LinkRec>,
    virtualLinks: seq<VirtualLinkRec>)

  /** Why a conversion aborts (each is an exception in convertformat.py). */
  datatype ConvertError =
    | MalformedNumber              // int() of an empty or multi-valued attribute
    | InconsistentBaseRate         // "capacity of all non-multi links must be the same"
    | NoBaseRate                   // assert(rate is not None)
    | MultiLinkNotBetweenSwitches  // "multi link must connect two switches"
    | NoConnection(d1: int, d2: int) // random.choice on an empty candidate list

  /** Port p is listed by some device of devs. */
  predicate Listed(devs: seq<DeviceRec>, p: int) {
    exists i :: 0 <= i < |devs| && p in devs[i].ports
  }

  /** No port id appears twice, on one device or on two. */
  ghost predicate PortsDistinct(devs: seq<DeviceRec>) {
    forall i, j, a, b ::
      (0 <= i < |devs| && 0 <= j < |devs| &&
       0 <= a < |devs[i].ports| && 0 <= b < |devs[j].ports| &&
       devs[i].ports[a] == devs[j].ports[b]) ==> i == j && a == b
  }

  /** Every listed port id is at most m. */
  ghost predicate PortsAtMost(devs: seq<DeviceRec>, m: int) {
    forall i, a :: 0 <= i < |devs| && 0 <= a < |devs[i].ports| ==> devs[i].ports[a] <= m
  }

  /** port -> device number, as filled by a loop over the devices and their
      ports in document order: a later listing of a port overwrites. */
  function OwnerMap(devs: seq<DeviceRec>): map<int, int>
    decreases |devs|
  {
    if devs == [] then map[]
    else OwnerMap(devs[..|devs| - 1]) + PortsTo(devs[|devs| - 1].ports, devs[|devs| - 1].number)
  }

  function PortsTo(ports: seq<int>, number: int): map<int, int> {
    map p | p in ports :: number
  }

  /** A port has an owner exactly when some device lists it, and the owner
      is the number of a device that lists it. */
  lemma {:induction false} OwnerMapKeys(devs: seq<DeviceRec>, p: int)
    ensures p in OwnerMap(devs) <==> Listed(devs, p)
    ensures p in OwnerMap(devs) ==>
      exists i :: 0 <= i < |devs| && p in devs[i].ports && devs[i].number == OwnerMap(devs)[p]
  {
    if devs != [] {
      var n := |devs| - 1;
      OwnerMapKeys(devs[..n], p);
      if p !in devs[n].ports && p in OwnerMap(devs[..n]) {
        var i :| 0 <= i < n && p in devs[..n][i].ports && devs[..n][i].number == OwnerMap(devs[..n])[p];
        assert devs[i] == devs[..n][i];
      }
    }
  }

  /** With distinct ports, every listed port maps to the device that lists it. */
  lemma {:induction false} OwnerMapOwner(devs: seq<DeviceRec>, i: int, p: int)
    requires PortsDistinct(devs)
    requires 0 <= i < |devs| && p in devs[i].ports
    ensures p in OwnerMap(devs) && OwnerMap(devs)[p] == devs[i].number
  {
    var n := |devs| - 1;
    if i < n {
      PortsDistinctPrefix(devs, n);
      assert devs[..n][i] == devs[i];
      OwnerMapOwner(devs[..n], i, p);
      if p in devs[n].ports {
        assert false;
      }
    }
  }

  lemma PortsDistinctPrefix(devs: seq<DeviceRec>, n: nat)
    requires PortsDistinct(devs) && n <= |devs|
    ensures PortsDistinct(devs[..n])
  {
    forall i1, j1, a, b |
      0 <= i1 < n && 0 <= j1 < n &&
      0 <= a < |devs[..n][i1].ports| && 0 <= b < |devs[..n][j1].ports| &&
      devs[..n][i1].ports[a] == devs[..n][j1].ports[b]
      ensures i1 == j1 && a == b
    {
      assert devs[..n][i1] == devs[i1] && devs[..n][j1] == devs[j1];
    }
  }

  /** Indexing two lists in turn gives the union, the second winning. */
  lemma {:induction false} OwnerMapAppend(a: seq<DeviceRec>, b: seq<DeviceRec>)
    ensures OwnerMap(a + b) == OwnerMap(a) + OwnerMap(b)
    decreases |b|
  {
    if b == [] {
      assert a + b == a;
    } else {
      var n := |b| - 1;
      var last := PortsTo(b[n].ports, b[n].number);
      AppendInit(a, b);
      assert OwnerMap(a + b) == OwnerMap(a + b[..n]) + last;
      OwnerMapAppend(a, b[..n]);
      UnionAssoc(OwnerMap(a), OwnerMap(b[..n]), last);
    }
  }

  lemma AppendInit(a: seq<DeviceRec>, b: seq<DeviceRec>)
    requires b != []
    ensures (a + b)[..|a + b| - 1] == a + b[..|b| - 1]
    ensures (a + b)[|a + b| - 1] == b[|b| - 1]
  {
  }

  lemma UnionAssoc(x: map<int, int>, y: map<int, int>, z: map<int, int>)
    ensures (x + y) + z == x + (y + z)
  {
  }

  lemma OwnerMapStep(devs: seq<DeviceRec>, i: int)
    requires 0 <= i < |devs|
    ensures OwnerMap(devs[..i + 1]) == OwnerMap(devs[..i]) + PortsTo(devs[i].ports, devs[i].number)
  {
    assert devs[..i + 1][..i] == devs[..i];
  }

  /** One more device indexed on top of a starting table. */
  lemma OwnerMapGrow(base: map<int, int>, devs: seq<DeviceRec>, i: int, ports: seq<int>, number: int)
    requires 0 <= i < |devs| && devs[i] == DeviceRec(number, ports)
    ensures (base + OwnerMap(devs[..i])) + PortsTo(ports, number) == base + OwnerMap(devs[..i + 1])
  {
    OwnerMapStep(devs, i);
    UnionAssoc(base, OwnerMap(devs[..i]), PortsTo(ports, number));
  }

  lemma PortsToStep(m: map<int, int>, ports: seq<int>, k: int, number: int)
    requires 0 <= k < |ports|
    ensures (m + PortsTo(ports[..k], number))[ports[k] := number] == m + PortsTo(ports[..k + 1], number)
  {
    assert ports[..k + 1] == ports[..k] + [ports[k]];
  }

  /** The port-indexing loop: `port_switch` in convertformat.py and the
      `_portDevice` loops of `fromXml`. */
  method IndexPorts(devs: seq<DeviceRec>, start: map<int, int>) returns (m: map<int, int>)
    ensures m == start + OwnerMap(devs)
  {
    m := start;
    var i := 0;
    while i < |devs|
      invariant 0 <= i <= |devs|
      invariant m == start + OwnerMap(devs[..i])
    {
      var ports, number := devs[i].ports, devs[i].number;
      m := MarkPorts(m, ports, number);
      OwnerMapGrow(start, devs, i, ports, number);
      i := i + 1;
    }
    assert devs[..i] == devs;
  }

  /** The inner loop: every port of one device is given its number. */
  method MarkPorts(m0: map<int, int>, ports: seq<int>, number: int) returns (m: map<int, int>)
    ensures m == m0 + PortsTo(ports, number)
  {
    m := m0;
    var k := 0;
    while k < |ports|
      invariant 0 <= k <= |ports|
      invariant m == m0 + PortsTo(ports[..k], number)
    {
      PortsToStep(m0, ports, k, number);
      m := m[ports[k] := number];
      k := k + 1;
    }
    assert ports[..k] == ports;
  }
}
