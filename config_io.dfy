/** The resource tables `fromXml` builds (configio.cpp:26-89 and 104-105):
    the link table, the port-to-device table and the devices, and the
    attributes it writes back into the document (forced link capacities and
    each virtual link's `lmin`). XML access is abstracted into plain
    records; the `ports` attribute stays a string and is split by the
    tokenizer of module Csv, as the source does. */
module ConfigIo {
  import opened Wrappers
  import Csv
  import opened Topology
  import DelayMath

  /** A `link` element: `from`, `to` and `capacity` as `std::stoi` and
      `std::stof` read them. */
  datatype LinkEntry = LinkEntry(from: int, to: int, capacity: real)

  /** An `endSystem` or `switch` element: `number` and the raw `ports`
      attribute. */
  datatype NodeEntry = NodeEntry(number: int, ports: string)

  /** A `virtualLink` element: `number`, `lmax` and the `lmin` attribute,
      None while it is absent. */
  datatype VlEntry = VlEntry(number: int, lmax: int, lmin: Option<int>)

  /** The `Device::End` and `Device::Switch` kinds `fromXml` creates. */
  datatype DeviceType = End | Switch

  /** A device with the port ids `AddPorts` gave it. */
  datatype Device = Device(kind: DeviceType, id: int, ports: seq<int>)

  /** The mutable part of the XML document. */
  class Document {
    var links: seq<LinkEntry>
    var endSystems: seq<NodeEntry>
    var switches: seq<NodeEntry>
    var virtualLinks: seq<VlEntry>

    constructor (links: seq<LinkEntry>, endSystems: seq<NodeEntry>, switches: seq<NodeEntry>,
                 virtualLinks: seq<VlEntry>)
      ensures this.links == links && this.endSystems == endSystems
      ensures this.switches == switches && this.virtualLinks == virtualLinks
    {
      this.links := links;
      this.endSystems := endSystems;
      this.switches := switches;
      this.virtualLinks := virtualLinks;
    }
  }

  /** The tables of a `VlinkConfig` that `fromXml` fills from the
      resources. */
  class VlinkConfig {
    var linkRate: real
    var links: map<int, int>
    var portDevice: map<int, int>
    var devices: map<int, Device>

    constructor ()
      ensures links == map[] && portDevice == map[] && devices == map[]
    {
      linkRate := 0.0;
      links := map[];
      portDevice := map[];
      devices := map[];
    }
  }

  // ---------------------------------------------------------------------
  // Specification

  /** `static_cast<int64_t>` of a floating value: truncation toward zero. */
  function Trunc(x: real): (n: int)
    ensures n as real <= x < n as real + 1.0 || n as real - 1.0 < x <= n as real
    ensures 0.0 <= x ==> 0 <= n
  {
    if x >= 0.0 then x.Floor else -((-x).Floor)
  }

  /** The rate of the configuration: `forceLinkRate`, or the first link's
      capacity truncated to an integer. */
  function LinkRate(links: seq<LinkEntry>, force: int): real
    requires force != 0 || links != []
  {
    if force == 0 then Trunc(links[0].capacity) as real else force as real
  }

  /** Without a forced rate, some link's capacity differs from the rate. */
  predicate CapacityMismatch(links: seq<LinkEntry>, force: int)
    requires force != 0 || links != []
  {
    force == 0 && exists k :: 0 <= k < |links| && links[k].capacity != LinkRate(links, force)
  }

  /** The links with every capacity overwritten by `force`. */
  function Forced(links: seq<LinkEntry>, force: int): seq<LinkEntry> {
    seq(|links|, k requires 0 <= k < |links| => links[k].(capacity := force as real))
  }

  /** The link table: both directions of every link, in document order, a
      later entry overwriting an earlier one. */
  function LinkTable(links: seq<LinkEntry>): map<int, int>
    decreases |links|
  {
    if links == [] then map[]
    else
      var l := links[|links| - 1];
      LinkTable(links[..|links| - 1])[l.from := l.to][l.to := l.from]
  }

  /** Port p is an end of link l. */
  predicate Touches(l: LinkEntry, p: int) {
    p == l.from || p == l.to
  }

  /** The port at the other end of l from p (the `to` assignment is made
      last, so a loop link maps its port to itself). */
  function Partner(l: LinkEntry, p: int): int {
    if p == l.to then l.from else l.to
  }

  /** No port is an end of two links, and no link is a loop. */
  ghost predicate LinksDisjoint(links: seq<LinkEntry>) {
    (forall k :: 0 <= k < |links| ==> links[k].from != links[k].to) &&
    (forall k, k', p :: 0 <= k < k' < |links| && Touches(links[k], p) ==> !Touches(links[k'], p))
  }

  /** The device records as the loops see them: `ports` tokenized. */
  function Devs(nodes: seq<NodeEntry>): (r: seq<DeviceRec>)
    ensures |r| == |nodes|
    ensures forall k :: 0 <= k < |nodes| ==>
      r[k].number == nodes[k].number && r[k].ports == Csv.Tokens(nodes[k].ports, 0)
  {
    seq(|nodes|, k requires 0 <= k < |nodes| => DeviceRec(nodes[k].number, Csv.Tokens(nodes[k].ports, 0)))
  }

  /** Some end system does not list exactly one port. */
  predicate BadEndSystem(ends: seq<NodeEntry>) {
    exists k :: 0 <= k < |ends| && |Csv.Tokens(ends[k].ports, 0)| != 1
  }

  /** The device table: one device per number, made by the last element
      with that number (end systems first, then switches), with that
      element's ports. */
  function DeviceTable(recs: seq<DeviceRec>, kind: DeviceType, start: map<int, Device>): map<int, Device>
    decreases |recs|
  {
    if recs == [] then start
    else
      var r := recs[|recs| - 1];
      DeviceTable(recs[..|recs| - 1], kind, start)[r.number := Device(kind, r.number, r.ports)]
  }

  function AllDevices(ends: seq<NodeEntry>, switches: seq<NodeEntry>): map<int, Device> {
    DeviceTable(Devs(switches), Switch, DeviceTable(Devs(ends), End, map[]))
  }

  /** The virtual links after `lmin` is written on each: the smaller of
      the default minimum frame size and the link's `lmax`, nothing else
      of the link changed. */
  function WithLmin(vls: seq<VlEntry>, sminDefault: int): (r: seq<VlEntry>)
    ensures |r| == |vls|
    ensures forall k :: 0 <= k < |vls| ==>
      r[k].number == vls[k].number && r[k].lmax == vls[k].lmax && r[k].lmin.Some? &&
      r[k].lmin.value <= sminDefault && r[k].lmin.value <= vls[k].lmax &&
      (r[k].lmin.value == sminDefault || r[k].lmin.value == vls[k].lmax)
  {
    seq(|vls|, k requires 0 <= k < |vls| => vls[k].(lmin := Some(DelayMath.Min(sminDefault, vls[k].lmax))))
  }

  /** The devices with their ports not yet added. */
  function Unported(devices: map<int, Device>): map<int, Device> {
    map n | n in devices :: devices[n].(ports := [])
  }

  function PortLists(devices: map<int, Device>): map<int, seq<int>> {
    map n | n in devices :: devices[n].ports
  }

  // ---------------------------------------------------------------------
  // The reader

  /** `fromXml` up to the tables: nullptr (here `null`) on a capacity
      mismatch or an end system without exactly one port. */
  method FromXml(doc: Document, force: int, sminDefault: int) returns (config: VlinkConfig?)
    modifies doc
    requires force != 0 || |doc.links| > 0
    ensures config == null <==>
      CapacityMismatch(old(doc.links), force) || BadEndSystem(old(doc.endSystems))
    ensures doc.links == if force == 0 then old(doc.links) else Forced(old(doc.links), force)
    ensures doc.endSystems == old(doc.endSystems) && doc.switches == old(doc.switches)
    ensures doc.virtualLinks ==
      if config == null then old(doc.virtualLinks) else WithLmin(old(doc.virtualLinks), sminDefault)
    ensures config != null ==>
      fresh(config) &&
      config.linkRate == LinkRate(old(doc.links), force) &&
      config.links == LinkTable(old(doc.links)) &&
      config.portDevice == OwnerMap(Devs(old(doc.endSystems)) + Devs(old(doc.switches))) &&
      config.devices == AllDevices(old(doc.endSystems), old(doc.switches))
  {
    config := new VlinkConfig();
    config.linkRate := LinkRate(doc.links, force);
    var ok := ReadLinks(doc, config, force);
    if !ok {
      return null;
    }
    var portNums: map<int, seq<int>>;
    ok, portNums := ReadEndSystems(doc, config);
    if !ok {
      return null;
    }
    ghost var ends := Devs(doc.endSystems);
    portNums := ReadSwitches(doc.switches, config, portNums, OwnerMap(ends), DeviceTable(ends, End, map[]));
    OwnerMapAppend(ends, Devs(doc.switches));
    AddPorts(config, portNums);
    RestorePorts(AllDevices(doc.endSystems, doc.switches));
    WriteLmin(doc, sminDefault);
  }

  /** The loop over the links (configio.cpp:43-56). */
  method ReadLinks(doc: Document, config: VlinkConfig, force: int) returns (ok: bool)
    modifies doc, config
    requires force != 0 || |doc.links| > 0
    requires config.linkRate == LinkRate(doc.links, force) && config.links == map[]
    ensures ok <==> !CapacityMismatch(old(doc.links), force)
    ensures doc.links == if force == 0 then old(doc.links) else Forced(old(doc.links), force)
    ensures doc.endSystems == old(doc.endSystems) && doc.switches == old(doc.switches)
    ensures doc.virtualLinks == old(doc.virtualLinks)
    ensures ok ==> config.links == LinkTable(old(doc.links))
    ensures config.linkRate == old(config.linkRate)
    ensures config.portDevice == old(config.portDevice) && config.devices == old(config.devices)
  {
    ghost var links := doc.links;
    var i := 0;
    while i < |doc.links|
      invariant 0 <= i <= |doc.links| == |links|
      invariant doc.links[..i] == (if force == 0 then links[..i] else Forced(links[..i], force))
      invariant doc.links[i..] == links[i..]
      invariant doc.endSystems == old(doc.endSystems) && doc.switches == old(doc.switches)
      invariant doc.virtualLinks == old(doc.virtualLinks)
      invariant force == 0 ==> forall k :: 0 <= k < i ==> links[k].capacity == config.linkRate
      invariant config.links == LinkTable(links[..i])
      invariant config.linkRate == old(config.linkRate)
      invariant config.portDevice == old(config.portDevice) && config.devices == old(config.devices)
    {
      var l := doc.links[i];
      assert l == links[i] by { assert doc.links[i..][0] == links[i..][0]; }
      if force == 0 && l.capacity != config.linkRate {
        assert doc.links == doc.links[..i] + doc.links[i..];
        return false;
      } else if force != 0 {
        doc.links := doc.links[i := l.(capacity := force as real)];
      }
      config.links := config.links[l.from := l.to][l.to := l.from];
      LinkTableStep(links, i);
      ForcedStep(doc.links, links, i, force);
      i := i + 1;
    }
    assert links[..i] == links;
    assert doc.links == doc.links[..i];
    return true;
  }

  lemma LinkTableStep(links: seq<LinkEntry>, i: int)
    requires 0 <= i < |links|
    ensures LinkTable(links[..i + 1]) == LinkTable(links[..i])[links[i].from := links[i].to][links[i].to := links[i].from]
  {
    assert links[..i + 1][..i] == links[..i];
  }

  /** The prefix and suffix invariants of the link loop, one step on. */
  lemma ForcedStep(now: seq<LinkEntry>, links: seq<LinkEntry>, i: int, force: int)
    requires 0 <= i < |links| == |now|
    requires now[..i] == (if force == 0 then links[..i] else Forced(links[..i], force))
    requires now[i] == (if force == 0 then links[i] else links[i].(capacity := force as real))
    requires now[i + 1..] == links[i + 1..]
    ensures now[..i + 1] == (if force == 0 then links[..i + 1] else Forced(links[..i + 1], force))
  {
    assert now[..i + 1] == now[..i] + [now[i]];
    assert links[..i + 1] == links[..i] + [links[i]];
  }

  /** The loop over the end systems (configio.cpp:61-73). */
  method ReadEndSystems(doc: Document, config: VlinkConfig) returns (ok: bool, portNums: map<int, seq<int>>)
    modifies config
    requires config.portDevice == map[] && config.devices == map[]
    ensures ok <==> !BadEndSystem(doc.endSystems)
    ensures ok ==> config.portDevice == OwnerMap(Devs(doc.endSystems))
    ensures ok ==> config.devices == Unported(DeviceTable(Devs(doc.endSystems), End, map[]))
    ensures ok ==> portNums == PortLists(DeviceTable(Devs(doc.endSystems), End, map[]))
    ensures config.links == old(config.links) && config.linkRate == old(config.linkRate)
  {
    ghost var devs := Devs(doc.endSystems);
    ghost var table: map<int, Device> := map[];
    portNums := map[];
    var i := 0;
    while i < |doc.endSystems|
      invariant 0 <= i <= |doc.endSystems|
      invariant OnePortEach(devs[..i])
      invariant config.portDevice == OwnerMap(devs[..i])
      invariant table == DeviceTable(devs[..i], End, map[])
      invariant config.devices == Unported(table)
      invariant portNums == PortLists(table)
      invariant config.links == old(config.links) && config.linkRate == old(config.linkRate)
    {
      var es := doc.endSystems[i];
      var ports := Csv.TokenizeCsv(es.ports);
      if |ports| != 1 {
        return false, portNums;
      }
      var number := es.number;
      EndSystemStep(doc.endSystems, devs, i, config.portDevice, table, ports, number);
      config.portDevice := config.portDevice[ports[0] := number];
      portNums := AddDevice(config, Device(End, number, ports), portNums, table);
      table := table[number := Device(End, number, ports)];
      i := i + 1;
    }
    EndSystemsRead(doc.endSystems, devs);
    return true, portNums;
  }

  /** One end system read: its single port is indexed and it joins the
      table. */
  lemma EndSystemStep(ends: seq<NodeEntry>, devs: seq<DeviceRec>, i: int, pd: map<int, int>,
                      table: map<int, Device>, ports: seq<int>, number: int)
    requires devs == Devs(ends) && 0 <= i < |ends|
    requires ports == Csv.Tokens(ends[i].ports, 0) && |ports| == 1 && number == ends[i].number
    requires OnePortEach(devs[..i]) && pd == OwnerMap(devs[..i]) && table == DeviceTable(devs[..i], End, map[])
    ensures OnePortEach(devs[..i + 1])
    ensures pd[ports[0] := number] == OwnerMap(devs[..i + 1])
    ensures table[number := Device(End, number, ports)] == DeviceTable(devs[..i + 1], End, map[])
  {
    assert devs[i] == DeviceRec(number, ports);
    OnePortEachStep(devs, i);
    OwnerMapStep(devs, i);
    SinglePortTo(pd, ports, number);
    DeviceTableStep(devs, i, End, map[]);
  }

  /** Every end system read with one port: none is bad. */
  lemma EndSystemsRead(ends: seq<NodeEntry>, devs: seq<DeviceRec>)
    requires devs == Devs(ends) && OnePortEach(devs[..|ends|])
    ensures !BadEndSystem(ends) && devs[..|ends|] == devs
  {
    assert devs[..|ends|] == devs;
    forall k | 0 <= k < |ends|
      ensures |Csv.Tokens(ends[k].ports, 0)| == 1
    {
      assert devs[k].ports == Csv.Tokens(ends[k].ports, 0);
    }
  }

  /** Every device lists exactly one port. */
  predicate OnePortEach(devs: seq<DeviceRec>) {
    forall k :: 0 <= k < |devs| ==> |devs[k].ports| == 1
  }

  lemma OnePortEachStep(devs: seq<DeviceRec>, i: int)
    requires 0 <= i < |devs| && OnePortEach(devs[..i]) && |devs[i].ports| == 1
    ensures OnePortEach(devs[..i + 1])
  {
    assert devs[..i + 1] == devs[..i] + [devs[i]];
  }

  /** `new Device(...)` under its number, its ports recorded for later. */
  method AddDevice(config: VlinkConfig, d: Device, portNums0: map<int, seq<int>>, ghost table: map<int, Device>)
    returns (portNums: map<int, seq<int>>)
    modifies config
    requires config.devices == Unported(table) && portNums0 == PortLists(table)
    ensures config.devices == Unported(table[d.id := d])
    ensures portNums == PortLists(table[d.id := d])
    ensures config.portDevice == old(config.portDevice)
    ensures config.links == old(config.links) && config.linkRate == old(config.linkRate)
  {
    TableUpdate(table, d);
    config.devices := config.devices[d.id := Device(d.kind, d.id, [])];
    portNums := portNums0[d.id := d.ports];
  }

  /** Adding a device to the table adds it, without ports, to the unported
      devices, and adds its ports to the port lists. */
  lemma TableUpdate(table: map<int, Device>, d: Device)
    ensures Unported(table[d.id := d]) == Unported(table)[d.id := Device(d.kind, d.id, [])]
    ensures PortLists(table[d.id := d]) == PortLists(table)[d.id := d.ports]
  {
  }

  /** Giving the unported devices their port lists back gives the
      devices. */
  lemma RestorePorts(devices: map<int, Device>)
    ensures (map n | n in Unported(devices) :: Unported(devices)[n].(ports := PortLists(devices)[n])) == devices
  {
    var m := map n | n in Unported(devices) :: Unported(devices)[n].(ports := PortLists(devices)[n]);
    assert m.Keys == devices.Keys;
    forall n | n in m
      ensures m[n] == devices[n]
    {
      var d := devices[n];
      assert m[n] == d.(ports := []).(ports := d.ports);
    }
  }

  lemma SinglePortTo(m: map<int, int>, ports: seq<int>, number: int)
    requires |ports| == 1
    ensures m + PortsTo(ports, number) == m[ports[0] := number]
  {
  }

  lemma DeviceTableStep(recs: seq<DeviceRec>, i: int, kind: DeviceType, start: map<int, Device>)
    requires 0 <= i < |recs|
    ensures DeviceTable(recs[..i + 1], kind, start) ==
      DeviceTable(recs[..i], kind, start)[recs[i].number := Device(kind, recs[i].number, recs[i].ports)]
  {
    assert recs[..i + 1][..i] == recs[..i];
  }

  /** The loop over the switches (configio.cpp:75-86), on top of the
      tables the end systems filled. */
  method ReadSwitches(switches: seq<NodeEntry>, config: VlinkConfig, portNums0: map<int, seq<int>>,
                      ghost base: map<int, int>, ghost start: map<int, Device>)
    returns (portNums: map<int, seq<int>>)
    modifies config
    requires config.portDevice == base
    requires config.devices == Unported(start) && portNums0 == PortLists(start)
    ensures config.portDevice == base + OwnerMap(Devs(switches))
    ensures config.devices == Unported(DeviceTable(Devs(switches), Switch, start))
    ensures portNums == PortLists(DeviceTable(Devs(switches), Switch, start))
    ensures config.links == old(config.links) && config.linkRate == old(config.linkRate)
  {
    ghost var devs := Devs(switches);
    ghost var table := start;
    portNums := portNums0;
    assert base + OwnerMap(devs[..0]) == base;
    var i := 0;
    while i < |switches|
      invariant 0 <= i <= |switches|
      invariant config.portDevice == base + OwnerMap(devs[..i])
      invariant table == DeviceTable(devs[..i], Switch, start)
      invariant config.devices == Unported(table)
      invariant portNums == PortLists(table)
      invariant config.links == old(config.links) && config.linkRate == old(config.linkRate)
    {
      var number := switches[i].number;
      var ports := Csv.TokenizeCsv(switches[i].ports);
      SwitchStep(switches, devs, i, base, start, ports, number);
      config.portDevice := MarkPorts(config.portDevice, ports, number);
      portNums := AddDevice(config, Device(Switch, number, ports), portNums, table);
      table := table[number := Device(Switch, number, ports)];
      i := i + 1;
    }
    assert devs[..i] == devs;
  }

  /** One switch read: its ports are indexed and it joins the table. */
  lemma SwitchStep(switches: seq<NodeEntry>, devs: seq<DeviceRec>, i: int, base: map<int, int>,
                   start: map<int, Device>, ports: seq<int>, number: int)
    requires devs == Devs(switches) && 0 <= i < |switches|
    requires ports == Csv.Tokens(switches[i].ports, 0) && number == switches[i].number
    ensures (base + OwnerMap(devs[..i])) + PortsTo(ports, number) == base + OwnerMap(devs[..i + 1])
    ensures DeviceTable(devs[..i], Switch, start)[number := Device(Switch, number, ports)]
      == DeviceTable(devs[..i + 1], Switch, start)
  {
    assert devs[i] == DeviceRec(number, ports);
    OwnerMapGrow(base, devs, i, ports, number);
    DeviceTableStep(devs, i, Switch, start);
  }

  /** `Device::AddPorts` for every entry of `portNums` (configio.cpp:88-89,
      algo.cpp:21-26): each device, created with no ports, receives the
      list recorded for its number. Each iteration touches one device, so
      the order of the keys does not matter. */
  method AddPorts(config: VlinkConfig, portNums: map<int, seq<int>>)
    modifies config
    requires portNums.Keys == config.devices.Keys
    requires forall n :: n in config.devices ==> config.devices[n].ports == []
    ensures config.devices ==
      map n | n in old(config.devices) :: old(config.devices)[n].(ports := portNums[n])
    ensures config.links == old(config.links) && config.linkRate == old(config.linkRate)
    ensures config.portDevice == old(config.portDevice)
  {
    ghost var devices := config.devices;
    var todo := portNums.Keys;
    while todo != {}
      invariant todo <= portNums.Keys
      invariant config.devices.Keys == devices.Keys
      invariant forall n :: n in devices ==>
        config.devices[n] == devices[n].(ports := if n in todo then [] else portNums[n])
      invariant config.links == old(config.links) && config.linkRate == old(config.linkRate)
      invariant config.portDevice == old(config.portDevice)
      decreases todo
    {
      var num := Pick(todo);
      var d := config.devices[num];
      config.devices := config.devices[num := d.(ports := d.ports + portNums[num])];
      todo := todo - {num};
    }
    ghost var m := map n | n in devices :: devices[n].(ports := portNums[n]);
    assert config.devices.Keys == m.Keys;
    assert forall n :: n in m ==> config.devices[n] == m[n];
  }

  /** Some key of a non-empty set. */
  method Pick(s: set<int>) returns (x: int)
    requires s != {}
    ensures x in s
  {
    if forall y :: y !in s {
      assert false;
    }
    x :| x in s;
  }

  /** `lmin = min(sminDefault, smax)` written on every virtual link
      (configio.cpp:92-105). */
  method WriteLmin(doc: Document, sminDefault: int)
    modifies doc
    ensures doc.virtualLinks == WithLmin(old(doc.virtualLinks), sminDefault)
    ensures doc.links == old(doc.links) && doc.endSystems == old(doc.endSystems)
    ensures doc.switches == old(doc.switches)
  {
    ghost var vls := doc.virtualLinks;
    var i := 0;
    while i < |doc.virtualLinks|
      invariant 0 <= i <= |doc.virtualLinks| == |vls|
      invariant forall k :: 0 <= k < |vls| ==>
        doc.virtualLinks[k] == if k < i then vls[k].(lmin := Some(DelayMath.Min(sminDefault, vls[k].lmax))) else vls[k]
      invariant doc.links == old(doc.links) && doc.endSystems == old(doc.endSystems)
      invariant doc.switches == old(doc.switches)
    {
      var vl := doc.virtualLinks[i];
      var smin := DelayMath.Min(sminDefault, vl.lmax);
      doc.virtualLinks := doc.virtualLinks[i := vl.(lmin := Some(smin))];
      i := i + 1;
    }
  }

  // ---------------------------------------------------------------------
  // Properties of the tables

  /** A port that no link touches has no entry in the link table. */
  lemma {:induction false} LinkTableUntouched(links: seq<LinkEntry>, p: int)
    requires forall k :: 0 <= k < |links| ==> !Touches(links[k], p)
    ensures p !in LinkTable(links)
    decreases |links|
  {
    if links != [] {
      var n := |links| - 1;
      assert forall k :: 0 <= k < n ==> links[..n][k] == links[k];
      LinkTableUntouched(links[..n], p);
    }
  }

  /** The entry of a port is the other end of the last link touching it:
      later links overwrite earlier ones. */
  lemma {:induction false} LinkTableAt(links: seq<LinkEntry>, k: int, p: int)
    requires 0 <= k < |links| && Touches(links[k], p)
    requires forall j :: k < j < |links| ==> !Touches(links[j], p)
    ensures p in LinkTable(links) && LinkTable(links)[p] == Partner(links[k], p)
    decreases |links|
  {
    var n := |links| - 1;
    if k < n {
      assert forall j :: k < j < n ==> links[..n][j] == links[j];
      assert links[..n][k] == links[k];
      LinkTableAt(links[..n], k, p);
      assert !Touches(links[n], p);
    }
  }

  /** The ports in the link table are exactly the ends of the links. */
  lemma LinkTableKeys(links: seq<LinkEntry>, p: int)
    ensures p in LinkTable(links) <==> exists k :: 0 <= k < |links| && Touches(links[k], p)
  {
    if exists k :: 0 <= k < |links| && Touches(links[k], p) {
      var k := LastTouch(links, p);
      LinkTableAt(links, k, p);
    } else {
      LinkTableUntouched(links, p);
    }
  }

  /** The index of the last link touching p. */
  lemma LastTouch(links: seq<LinkEntry>, p: int) returns (k: int)
    requires exists k :: 0 <= k < |links| && Touches(links[k], p)
    ensures 0 <= k < |links| && Touches(links[k], p)
    ensures forall j :: k < j < |links| ==> !Touches(links[j], p)
  {
    k :| 0 <= k < |links| && Touches(links[k], p);
    while exists j :: k < j < |links| && Touches(links[j], p)
      invariant 0 <= k < |links| && Touches(links[k], p)
      decreases |links| - k
    {
      var j :| k < j < |links| && Touches(links[j], p);
      k := j;
    }
  }

  /** On a network where no port is an end of two links, the table holds
      both directions of every link and pairs the ports: following it twice
      returns to the start. */
  lemma LinkTableBothWays(links: seq<LinkEntry>, k: int)
    requires LinksDisjoint(links) && 0 <= k < |links|
    ensures links[k].from in LinkTable(links) && LinkTable(links)[links[k].from] == links[k].to
    ensures links[k].to in LinkTable(links) && LinkTable(links)[links[k].to] == links[k].from
  {
    LinkTableAt(links, k, links[k].from);
    LinkTableAt(links, k, links[k].to);
  }

  lemma LinkTableInvolution(links: seq<LinkEntry>, p: int)
    requires LinksDisjoint(links) && p in LinkTable(links)
    ensures LinkTable(links)[p] in LinkTable(links) && LinkTable(links)[LinkTable(links)[p]] == p
  {
    LinkTableKeys(links, p);
    var k :| 0 <= k < |links| && Touches(links[k], p);
    LinkTableBothWays(links, k);
  }

  /** Forcing the rate rewrites capacities only: the link table is the same. */
  lemma {:induction false} ForcedLinkTable(links: seq<LinkEntry>, force: int)
    ensures LinkTable(Forced(links, force)) == LinkTable(links)
    decreases |links|
  {
    if links != [] {
      var n := |links| - 1;
      assert Forced(links, force)[..n] == Forced(links[..n], force);
      ForcedLinkTable(links[..n], force);
    }
  }

  /** Links of one integral capacity pass the capacity check. */
  lemma UniformCapacityAccepted(links: seq<LinkEntry>, c: int)
    requires links != [] && forall k :: 0 <= k < |links| ==> links[k].capacity == c as real
    ensures !CapacityMismatch(links, 0) && LinkRate(links, 0) == c as real
  {
    var n := Trunc(c as real);
    assert n == c;
  }

  /** The rate is the truncated first capacity and every capacity is
      compared with it, so a fractional first capacity always fails the
      check, even when all capacities are equal. */
  lemma FractionalCapacityRejected(links: seq<LinkEntry>)
    requires links != [] && links[0].capacity != links[0].capacity.Floor as real
    ensures CapacityMismatch(links, 0)
  {
    assert links[0].capacity != LinkRate(links, 0);
  }

  /** The device under a number is made by the last element carrying that
      number, with that element's ports and kind. */
  lemma {:induction false} DeviceTableAt(recs: seq<DeviceRec>, kind: DeviceType, start: map<int, Device>, k: int)
    requires 0 <= k < |recs|
    requires forall j :: k < j < |recs| ==> recs[j].number != recs[k].number
    ensures recs[k].number in DeviceTable(recs, kind, start)
    ensures DeviceTable(recs, kind, start)[recs[k].number] == Device(kind, recs[k].number, recs[k].ports)
    decreases |recs|
  {
    var n := |recs| - 1;
    if k < n {
      assert forall j :: k < j < n ==> recs[..n][j] == recs[j];
      assert recs[..n][k] == recs[k];
      DeviceTableAt(recs[..n], kind, start, k);
    }
  }

  /** A number no element carries keeps its entry, or its absence, from
      the starting table. */
  lemma {:induction false} DeviceTableElse(recs: seq<DeviceRec>, kind: DeviceType, start: map<int, Device>, n: int)
    requires forall j :: 0 <= j < |recs| ==> recs[j].number != n
    ensures (n in DeviceTable(recs, kind, start)) == (n in start)
    ensures n in start ==> DeviceTable(recs, kind, start)[n] == start[n]
    decreases |recs|
  {
    if recs != [] {
      var m := |recs| - 1;
      assert forall j :: 0 <= j < m ==> recs[..m][j] == recs[j];
      DeviceTableElse(recs[..m], kind, start, n);
    }
  }

  /** End systems whose `ports` attribute is one integer written in
      decimal pass the one-port check, and each gets that port. */
  lemma WrittenEndSystemsAccepted(ends: seq<NodeEntry>, ports: seq<int>)
    requires |ports| == |ends|
    requires forall k :: 0 <= k < |ends| ==>
      Csv.IntMin <= ports[k] <= Csv.IntMax && ends[k].ports == Csv.Join([ports[k]])
    ensures !BadEndSystem(ends)
    ensures forall k :: 0 <= k < |ends| ==> Devs(ends)[k].ports == [ports[k]]
  {
    forall k | 0 <= k < |ends|
      ensures Csv.Tokens(ends[k].ports, 0) == [ports[k]]
    {
      Csv.TokensOfJoin([ports[k]]);
    }
  }
}
