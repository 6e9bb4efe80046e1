/** `convertformat` (convertformat.py:40-142) as a whole: the port scan,
    the base rate, the link expansion, the `port_device` map, the
    connection index and the path rewriting of every virtual link, in that
    order. The XML tree becomes a `Document` record in and out; the seeded
    generator becomes `rng`, whose k-th value picks the k-th
    `random.choice`. */
module ConvertFormat {
  import opened Wrappers
  import opened Topology
  import opened LinkExpansion
  import opened PathResolution

  /** `resources` after the expansion, with `port_device`. */
  datatype Staged = Staged(switches: seq<DeviceRec>, links: seq<LinkRec>, portDevice: map<int, int>)

  /** `port_switch` as first built names switches only. */
  lemma InitialOwners(switches: seq<DeviceRec>, maxPort: int)
    ensures OwnersAreSwitches(Expansion(switches, [], maxPort, OwnerMap(switches)))
  {
    forall p | p in OwnerMap(switches)
      ensures exists s :: 0 <= s < |switches| && switches[s].number == OwnerMap(switches)[p]
    {
      OwnerMapKeys(switches, p);
    }
  }

  /** Every end system lists exactly one port, as `int(es.get('ports'))`
      needs. */
  predicate SinglePorts(es: seq<DeviceRec>) {
    forall i :: 0 <= i < |es| ==> |es[i].ports| == 1
  }

  /** Some device has a `ports` attribute that cannot be read. */
  predicate SomePortsUnreadable(devs: seq<DeviceRec>) {
    exists i :: 0 <= i < |devs| && devs[i].ports == []
  }

  /** Everything up to the connection index (convertformat.py:49-108). */
  ghost function StageSpec(doc: Document): Result<Staged, ConvertError> {
    var devs := doc.endSystems + doc.switches;
    if SomePortsUnreadable(devs) then Failure(MalformedNumber)
    else match BaseRateSpec(doc.links)
      case Failure(e) => Failure(e)
      case Success(rate) =>
        InitialOwners(doc.switches, PortMax(devs));
        match ExpandAll(doc.links, rate, Expansion(doc.switches, [], PortMax(devs), OwnerMap(doc.switches)))
        case Failure(e) => Failure(e)
        case Success(e) =>
          if !SinglePorts(doc.endSystems) then Failure(MalformedNumber)
          else Success(Staged(e.switches, NormalizeAll(doc.links, rate) + e.added, e.portSwitch + OwnerMap(doc.endSystems)))
  }

  /** The loop over the virtual links (convertformat.py:124-140), the draw
      counter running on from one virtual link to the next. */
  function ResolveAll(index: ConnectionIndex, vls: seq<VirtualLinkRec>, next: nat, rng: nat -> nat)
    : Result<seq<VirtualLinkRec>, ConvertError>
    decreases |vls|
  {
    if vls == [] then Success([])
    else match ResolveSpec(index, vls[0], next, rng)
      case Failure(e) => Failure(e)
      case Success(res) =>
        match ResolveAll(index, vls[1..], res.1, rng)
        case Failure(e) => Failure(e)
        case Success(rest) => Success([res.0] + rest)
  }

  /** The converted document, or why `convertformat` raises before
      writing anything. */
  ghost function ConvertSpec(doc: Document, rng: nat -> nat): Result<Document, ConvertError> {
    match StageSpec(doc)
    case Failure(e) => Failure(e)
    case Success(s) =>
      match ResolveAll(IndexOf(s.links, s.portDevice), doc.virtualLinks, 0, rng)
      case Failure(e) => Failure(e)
      case Success(vls) => Success(Document(doc.endSystems, s.switches, s.links, vls))
  }

  lemma SinglePortStep(es: seq<DeviceRec>, i: int, start: map<int, int>)
    requires 0 <= i < |es| && |es[i].ports| == 1
    ensures start + OwnerMap(es[..i + 1]) == (start + OwnerMap(es[..i]))[es[i].ports[0] := es[i].number]
  {
    var p, n := es[i].ports[0], es[i].number;
    OwnerMapGrow(start, es, i, es[i].ports, n);
    PortsToOne(es[i].ports, n);
    UnionOne(start + OwnerMap(es[..i]), p, n);
  }

  lemma PortsToOne(ports: seq<int>, n: int)
    requires |ports| == 1
    ensures PortsTo(ports, n) == map[ports[0] := n]
  {
    assert ports == [ports[0]];
  }

  lemma UnionOne(m: map<int, int>, p: int, n: int)
    ensures m + map[p := n] == m[p := n]
  {
  }

  /** The end-system loop of convertformat.py:106-108. */
  method AddEndSystems(es: seq<DeviceRec>, start: map<int, int>) returns (r: Result<map<int, int>, ConvertError>)
    ensures r.Failure? <==> !SinglePorts(es)
    ensures r.Failure? ==> r.error == MalformedNumber
    ensures r.Success? ==> r.value == start + OwnerMap(es)
  {
    var m := start;
    var i := 0;
    while i < |es|
      invariant 0 <= i <= |es|
      invariant forall j :: 0 <= j < i ==> |es[j].ports| == 1
      invariant m == start + OwnerMap(es[..i])
    {
      if |es[i].ports| != 1 {
        return Failure(MalformedNumber);
      }
      SinglePortStep(es, i, start);
      m := m[es[i].ports[0] := es[i].number];
      i := i + 1;
    }
    assert es[..i] == es;
    r := Success(m);
  }

  /** The result of the loop so far, prefixed to what the rest yields. */
  function Prefixed(done: seq<VirtualLinkRec>, rest: Result<seq<VirtualLinkRec>, ConvertError>)
    : Result<seq<VirtualLinkRec>, ConvertError>
  {
    match rest
    case Failure(e) => Failure(e)
    case Success(vls) => Success(done + vls)
  }

  lemma ResolveAllStep(index: ConnectionIndex, vls: seq<VirtualLinkRec>, i: int, next: nat, rng: nat -> nat, done: seq<VirtualLinkRec>)
    requires 0 <= i < |vls|
    ensures Prefixed(done, ResolveAll(index, vls[i..], next, rng)) ==
      match ResolveSpec(index, vls[i], next, rng)
      case Failure(e) => Failure(e)
      case Success(res) => Prefixed(done + [res.0], ResolveAll(index, vls[i + 1..], res.1, rng))
  {
    assert vls[i..][0] == vls[i] && vls[i..][1..] == vls[i + 1..];
    match ResolveSpec(index, vls[i], next, rng)
    case Failure(e) =>
    case Success(res) =>
      match ResolveAll(index, vls[i + 1..], res.1, rng)
      case Failure(e) =>
      case Success(rest) =>
        assert done + ([res.0] + rest) == done + [res.0] + rest;
  }

  /** The loop of convertformat.py:124-140. */
  method ResolveVirtualLinks(index: ConnectionIndex, vls: seq<VirtualLinkRec>, rng: nat -> nat)
    returns (r: Result<seq<VirtualLinkRec>, ConvertError>)
    ensures r == ResolveAll(index, vls, 0, rng)
  {
    var done: seq<VirtualLinkRec> := [];
    var next: nat := 0;
    var i := 0;
    assert vls[i..] == vls;
    assert Prefixed(done, ResolveAll(index, vls, 0, rng)) == ResolveAll(index, vls, 0, rng) by {
      if ResolveAll(index, vls, 0, rng).Success? {
        assert [] + ResolveAll(index, vls, 0, rng).value == ResolveAll(index, vls, 0, rng).value;
      }
    }
    while i < |vls|
      invariant 0 <= i <= |vls|
      invariant ResolveAll(index, vls, 0, rng) == Prefixed(done, ResolveAll(index, vls[i..], next, rng))
    {
      ResolveAllStep(index, vls, i, next, rng, done);
      var one := ResolveVirtualLink(index, vls[i], next, rng);
      if one.Failure? {
        assert ResolveSpec(index, vls[i], next, rng) == Failure(one.error);
        return Failure(one.error);
      }
      done := done + [one.value.0];
      next := one.value.1;
      i := i + 1;
    }
    assert vls[i..] == [];
    assert done + [] == done;
    r := Success(done);
  }

  /** `convertformat`: the document it writes, or the error it raises. */
  method Convert(doc: Document, rng: nat -> nat) returns (r: Result<Document, ConvertError>)
    ensures r == ConvertSpec(doc, rng)
  {
    var devs := doc.endSystems + doc.switches;
    var scan := MaxPortNumber(devs);
    if scan.Failure? {
      return Failure(scan.error);
    }
    var portSwitch := IndexPorts(doc.switches, map[]);
    assert portSwitch == OwnerMap(doc.switches);
    var rate := BaseRate(doc.links);
    if rate.Failure? {
      return Failure(rate.error);
    }
    InitialOwners(doc.switches, scan.value);
    var expanded, links := ExpandLinks(doc.links, rate.value, Expansion(doc.switches, [], scan.value, portSwitch));
    if expanded.Failure? {
      return Failure(expanded.error);
    }
    var portDevice := AddEndSystems(doc.endSystems, expanded.value.portSwitch);
    if portDevice.Failure? {
      return Failure(portDevice.error);
    }
    assert StageSpec(doc) == Success(Staged(expanded.value.switches, links, portDevice.value));
    var index := BuildIndex(links, portDevice.value);
    var vls := ResolveVirtualLinks(index, doc.virtualLinks, rng);
    if vls.Failure? {
      return Failure(vls.error);
    }
    r := Success(Document(doc.endSystems, expanded.value.switches, links, vls.value));
  }

  // ---------------------------------------------------------------------
  // Properties of the conversion

  /** The pieces of a successful staging. */
  lemma StageParts(doc: Document) returns (rate: int, e: Expansion)
    requires StageSpec(doc).Success?
    ensures !SomePortsUnreadable(doc.endSystems + doc.switches)
    ensures BaseRateSpec(doc.links) == Success(rate)
    ensures OwnersAreSwitches(Expansion(doc.switches, [], PortMax(doc.endSystems + doc.switches), OwnerMap(doc.switches)))
    ensures ExpandAll(doc.links, rate, Expansion(doc.switches, [], PortMax(doc.endSystems + doc.switches), OwnerMap(doc.switches)))
      == Success(e)
    ensures SinglePorts(doc.endSystems)
    ensures StageSpec(doc).value == Staged(e.switches, NormalizeAll(doc.links, rate) + e.added, e.portSwitch + OwnerMap(doc.endSystems))
  {
    var devs := doc.endSystems + doc.switches;
    rate := BaseRateSpec(doc.links).value;
    InitialOwners(doc.switches, PortMax(devs));
    e := ExpandAll(doc.links, rate, Expansion(doc.switches, [], PortMax(devs), OwnerMap(doc.switches))).value;
  }

  lemma {:induction false} ResolveAllError(index: ConnectionIndex, vls: seq<VirtualLinkRec>, next: nat, rng: nat -> nat)
    ensures ResolveAll(index, vls, next, rng).Failure? ==>
      ResolveAll(index, vls, next, rng).error == MalformedNumber || ResolveAll(index, vls, next, rng).error.NoConnection?
    decreases |vls|
  {
    if vls != [] {
      ResolveOutcome(index, vls[0], next, rng);
      var one := ResolveSpec(index, vls[0], next, rng);
      if one.Success? {
        ResolveAllError(index, vls[1..], one.value.1, rng);
      }
    }
  }

  /** A document that can be read fails on the base rate exactly as the
      base-rate loop says: inconsistent plain capacities, or no plain link
      at all; one whose `ports` cannot be read fails before. */
  lemma ConvertRateErrors(doc: Document, rng: nat -> nat)
    ensures SomePortsUnreadable(doc.endSystems + doc.switches) ==> ConvertSpec(doc, rng) == Failure(MalformedNumber)
    ensures !SomePortsUnreadable(doc.endSystems + doc.switches) ==>
      (ConvertSpec(doc, rng) == Failure(InconsistentBaseRate) <==> RatesDisagree(doc.links))
    ensures !SomePortsUnreadable(doc.endSystems + doc.switches) ==>
      (ConvertSpec(doc, rng) == Failure(NoBaseRate) <==> forall i :: 0 <= i < |doc.links| ==> !IsPlain(doc.links[i]))
  {
    var devs := doc.endSystems + doc.switches;
    if !SomePortsUnreadable(devs) && BaseRateSpec(doc.links).Success? {
      var rate := BaseRateSpec(doc.links).value;
      var e0 := Expansion(doc.switches, [], PortMax(devs), OwnerMap(doc.switches));
      InitialOwners(doc.switches, PortMax(devs));
      ExpandAllError(doc.links, rate, e0);
      if StageSpec(doc).Success? {
        var s := StageSpec(doc).value;
        ResolveAllError(IndexOf(s.links, s.portDevice), doc.virtualLinks, 0, rng);
      }
      assert exists i :: 0 <= i < |doc.links| && IsPlain(doc.links[i]);
    }
  }

  /** The links of the converted document: the original links in their
      order, plain ones untouched and aggregated ones set to the base rate
      without `multi`, followed by the added links; every link carries the
      capacity of the plain links and none is aggregated. */
  lemma ConvertedLinks(doc: Document, rng: nat -> nat)
    requires ConvertSpec(doc, rng).Success?
    ensures var out := ConvertSpec(doc, rng).value;
      && |out.links| == |doc.links| + TotalExtra(doc.links)
      && (forall i :: 0 <= i < |doc.links| && IsPlain(doc.links[i]) ==> out.links[i] == doc.links[i])
      && (forall i, j :: 0 <= i < |doc.links| && 0 <= j < |doc.links| && IsAggregated(doc.links[i]) && IsPlain(doc.links[j]) ==>
            out.links[i] == doc.links[i].(capacity := doc.links[j].capacity, multi := None))
      && (forall i, j :: 0 <= i < |out.links| && 0 <= j < |doc.links| && IsPlain(doc.links[j]) ==>
            out.links[i].capacity == doc.links[j].capacity && !IsAggregated(out.links[i]))
  {
    var rate, e := StageParts(doc);
    var devs := doc.endSystems + doc.switches;
    var e0 := Expansion(doc.switches, [], PortMax(devs), OwnerMap(doc.switches));
    BaseRateOfPlain(doc.links, rate);
    UniformCapacity(doc.links, rate, e0);
    var out := ConvertSpec(doc, rng).value;
    assert out.links == NormalizeAll(doc.links, rate) + e.added;
    forall i | 0 <= i < |out.links|
      ensures out.links[i].capacity == rate && !IsAggregated(out.links[i])
    {
      assert out.links[i] in NormalizeAll(doc.links, rate) + e.added;
    }
  }

  /** The added links join the fresh ids max+1 and max+2, max+3 and max+4,
      ... in that order, where max is the largest port id of the input. */
  lemma ConvertedFreshLinks(doc: Document, rng: nat -> nat)
    requires ConvertSpec(doc, rng).Success?
    ensures var out := ConvertSpec(doc, rng).value;
      forall i :: |doc.links| <= i < |out.links| ==>
        out.links[i].from == PortMax(doc.endSystems + doc.switches) + 2 * (i - |doc.links|) + 1 &&
        out.links[i].to == PortMax(doc.endSystems + doc.switches) + 2 * (i - |doc.links|) + 2
  {
    var rate := ConvertedLinkList(doc, rng);
    var out := ConvertSpec(doc, rng).value;
    var base := PortMax(doc.endSystems + doc.switches);
    var added := FreshLinks(base, rate, TotalExtra(doc.links));
    forall i | |doc.links| <= i < |out.links|
      ensures out.links[i].from == base + 2 * (i - |doc.links|) + 1
      ensures out.links[i].to == base + 2 * (i - |doc.links|) + 2
    {
      assert out.links[i] == added[i - |doc.links|];
    }
  }

  /** The link list of the converted document, in terms of the input's. */
  lemma ConvertedLinkList(doc: Document, rng: nat -> nat) returns (rate: int)
    requires ConvertSpec(doc, rng).Success?
    ensures ConvertSpec(doc, rng).value.links ==
      NormalizeAll(doc.links, rate) + FreshLinks(PortMax(doc.endSystems + doc.switches), rate, TotalExtra(doc.links))
  {
    ConvertStaged(doc, rng);
    var e;
    rate, e := StageParts(doc);
    var devs := doc.endSystems + doc.switches;
    var e0 := Expansion(doc.switches, [], PortMax(devs), OwnerMap(doc.switches));
    ExpandAllAllocation(doc.links, rate, e0);
    assert e.added == e0.added + FreshLinks(PortMax(devs), rate, TotalExtra(doc.links));
  }

  /** A conversion that succeeds writes the staged switches and links. */
  lemma ConvertStaged(doc: Document, rng: nat -> nat)
    requires ConvertSpec(doc, rng).Success?
    ensures StageSpec(doc).Success?
    ensures ConvertSpec(doc, rng).value.links == StageSpec(doc).value.links
    ensures ConvertSpec(doc, rng).value.switches == StageSpec(doc).value.switches
    ensures ConvertSpec(doc, rng).value.endSystems == doc.endSystems
  {
  }

  /** The devices of the converted document: end systems untouched, the
      same switches with the same numbers; and if no port id was listed
      twice in the input, none is in the output, and every id is at most
      the counter's final value. */
  lemma ConvertedDevices(doc: Document, rng: nat -> nat)
    requires ConvertSpec(doc, rng).Success?
    ensures var out := ConvertSpec(doc, rng).value;
      && out.endSystems == doc.endSystems
      && |out.switches| == |doc.switches|
      && (forall s :: 0 <= s < |doc.switches| ==> out.switches[s].number == doc.switches[s].number)
      && (PortsDistinct(doc.endSystems + doc.switches) ==>
            PortsDistinct(out.endSystems + out.switches) &&
            PortsAtMost(out.endSystems + out.switches, PortMax(doc.endSystems + doc.switches) + 2 * TotalExtra(doc.links)))
  {
    var rate, e := StageParts(doc);
    var devs := doc.endSystems + doc.switches;
    var e0 := Expansion(doc.switches, [], PortMax(devs), OwnerMap(doc.switches));
    ExpandAllNumbers(doc.links, rate, e0);
    ExpandAllAllocation(doc.links, rate, e0);
    if PortsDistinct(devs) {
      ExpandAllFresh(doc.endSystems, doc.links, rate, e0);
    }
  }

  lemma {:induction false} ResolveAllShape(index: ConnectionIndex, vls: seq<VirtualLinkRec>, next: nat, rng: nat -> nat)
    requires ResolveAll(index, vls, next, rng).Success?
    ensures |ResolveAll(index, vls, next, rng).value| == |vls|
    ensures forall v :: 0 <= v < |vls| ==> Rewritten(index, vls[v], ResolveAll(index, vls, next, rng).value[v])
    decreases |vls|
  {
    if vls != [] {
      var one := ResolveSpec(index, vls[0], next, rng).value;
      ResolvedShape(index, vls[0], next, rng);
      ResolveAllShape(index, vls[1..], one.1, rng);
      var out := ResolveAll(index, vls, next, rng).value;
      forall v | 0 <= v < |vls| ensures Rewritten(index, vls[v], out[v]) {
        if v > 0 {
          assert vls[v] == vls[1..][v - 1];
        }
      }
    }
  }

  /** The virtual links of the converted document: the same virtual links
      in the same order, each rewritten (same paths, n devices to n-1
      ports, one port per device pair of the virtual link), every port
      being one the pair's second device owns. */
  lemma ConvertedPaths(doc: Document, rng: nat -> nat)
    requires ConvertSpec(doc, rng).Success?
    ensures StageSpec(doc).Success?
    ensures var out := ConvertSpec(doc, rng).value;
      var pd := StageSpec(doc).value.portDevice;
      && |out.virtualLinks| == |doc.virtualLinks|
      && (forall v :: 0 <= v < |doc.virtualLinks| ==>
            Rewritten(IndexOf(out.links, pd), doc.virtualLinks[v], out.virtualLinks[v]))
      && (forall v, i, k ::
            0 <= v < |doc.virtualLinks| && 0 <= i < |doc.virtualLinks[v].paths| &&
            0 <= k < |out.virtualLinks[v].paths[i].hops| ==>
              out.virtualLinks[v].paths[i].hops[k] in pd &&
              pd[out.virtualLinks[v].paths[i].hops[k]] == doc.virtualLinks[v].paths[i].hops[k + 1])
  {
    var s := StageSpec(doc).value;
    var out := ConvertSpec(doc, rng).value;
    var index := IndexOf(s.links, s.portDevice);
    ResolveAllShape(index, doc.virtualLinks, 0, rng);
    forall v, i, k |
      0 <= v < |doc.virtualLinks| && 0 <= i < |doc.virtualLinks[v].paths| &&
      0 <= k < |out.virtualLinks[v].paths[i].hops|
      ensures out.virtualLinks[v].paths[i].hops[k] in s.portDevice
      ensures s.portDevice[out.virtualLinks[v].paths[i].hops[k]] == doc.virtualLinks[v].paths[i].hops[k + 1]
    {
      var path := doc.virtualLinks[v].paths[i].hops;
      var h := Hop(path[k], path[k + 1]);
      assert Rewritten(index, doc.virtualLinks[v], out.virtualLinks[v]);
      IndexOfLookup(s.links, s.portDevice, h);
      CandidateOwnedByDestination(s.links, s.portDevice, h, out.virtualLinks[v].paths[i].hops[k]);
    }
  }

  lemma {:induction false} ResolveAllUnique(index: ConnectionIndex, vls: seq<VirtualLinkRec>, next: nat, rng1: nat -> nat, rng2: nat -> nat)
    requires ResolveAll(index, vls, next, rng1).Success?
    requires forall v, i, h :: 0 <= v < |vls| && 0 <= i < |vls[v].paths| && h in Pairs(vls[v].paths[i].hops) ==>
      |Lookup(index, h)| == 1
    ensures ResolveAll(index, vls, next, rng1) == ResolveAll(index, vls, next, rng2)
    decreases |vls|
  {
    if vls != [] {
      UniqueCandidateDeterministic(index, vls[0], next, rng1, rng2);
      var one := ResolveSpec(index, vls[0], next, rng1).value;
      forall v, i, h | 0 <= v < |vls[1..]| && 0 <= i < |vls[1..][v].paths| && h in Pairs(vls[1..][v].paths[i].hops)
        ensures |Lookup(index, h)| == 1
      {
        assert vls[1..][v] == vls[v + 1];
      }
      ResolveAllUnique(index, vls[1..], one.1, rng1, rng2);
    }
  }

  /** When every device pair on the paths has exactly one candidate port,
      the random source makes no difference to the converted document. */
  lemma ConvertIgnoresRngWhenUnique(doc: Document, rng1: nat -> nat, rng2: nat -> nat)
    requires StageSpec(doc).Success? && ConvertSpec(doc, rng1).Success?
    requires forall v, i, h ::
      0 <= v < |doc.virtualLinks| && 0 <= i < |doc.virtualLinks[v].paths| && h in Pairs(doc.virtualLinks[v].paths[i].hops) ==>
        |Candidates(StageSpec(doc).value.links, StageSpec(doc).value.portDevice, h)| == 1
    ensures ConvertSpec(doc, rng1) == ConvertSpec(doc, rng2)
  {
    var s := StageSpec(doc).value;
    var index := IndexOf(s.links, s.portDevice);
    forall h ensures Lookup(index, h) == Candidates(s.links, s.portDevice, h) {
      IndexOfLookup(s.links, s.portDevice, h);
    }
    ResolveAllUnique(index, doc.virtualLinks, 0, rng1, rng2);
  }
}
