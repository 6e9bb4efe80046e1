/** The first half of `convertformat` (convertformat.py:49-101): the scan
    for the largest port id, the base-rate check and the expansion of every
    aggregated (`multi=M`, M > 1) link into M links at the base rate, with
    fresh ports allocated from a running counter. */
module LinkExpansion {
  import opened Wrappers
  import opened Topology

  /** A link whose `multi` attribute is present and above 1. */
  predicate IsAggregated(l: LinkRec) {
    l.multi.Some? && l.multi.value > 1
  }

  /** How many links an aggregated link adds beside itself. */
  function Extra(l: LinkRec): nat {
    if IsAggregated(l) then l.multi.value - 1 else 0
  }

  function TotalExtra(links: seq<LinkRec>): nat {
    if links == [] then 0 else Extra(links[0]) + TotalExtra(links[1..])
  }

  /** Python's builtin `max` over a non-empty list. */
  function MaxOf(s: seq<int>): (m: int)
    requires s != []
    ensures m in s && forall x :: x in s ==> x <= m
  {
    if |s| == 1 then s[0]
    else
      assert s == [s[0]] + s[1..];
      var t := MaxOf(s[1..]);
      if s[0] > t then s[0] else t
  }

  lemma PortsAtMostExtend(devs: seq<DeviceRec>, last: seq<int>, m: int)
    requires devs != [] && PortsAtMost(devs[..|devs| - 1], m)
    requires last == devs[|devs| - 1].ports && forall x :: x in last ==> x <= m
    ensures PortsAtMost(devs, m)
  {
    var n := |devs| - 1;
    forall i, a | 0 <= i < |devs| && 0 <= a < |devs[i].ports|
      ensures devs[i].ports[a] <= m
    {
      if i < n {
        assert devs[..n][i] == devs[i];
      } else {
        assert devs[i].ports[a] in devs[n].ports;
      }
    }
  }

  lemma ListedExtend(devs: seq<DeviceRec>, p: int)
    requires devs != []
    ensures Listed(devs[..|devs| - 1], p) || p in devs[|devs| - 1].ports ==> Listed(devs, p)
  {
    var n := |devs| - 1;
    if p !in devs[n].ports && Listed(devs[..n], p) {
      var i :| 0 <= i < n && p in devs[..n][i].ports;
      assert devs[..n][i] == devs[i];
    }
  }

  /** The largest port id listed on any device, or 0 when there is none
      above 0: the value of `max_port_num` after convertformat.py:50-54. */
  function PortMax(devs: seq<DeviceRec>): (m: int)
    ensures 0 <= m && PortsAtMost(devs, m)
    ensures m != 0 ==> Listed(devs, m)
    decreases |devs|
  {
    if devs == [] then 0
    else
      var n := |devs| - 1;
      var prev := PortMax(devs[..n]);
      var local := if devs[n].ports == [] then prev else MaxOf(devs[n].ports);
      var m := if local > prev then local else prev;
      PortsAtMostExtend(devs, devs[n].ports, m);
      ListedExtend(devs, m);
      m
  }

  /** The scan for free port numbers (convertformat.py:50-54). A device
      whose `ports` cannot be read aborts the conversion. */
  method MaxPortNumber(devs: seq<DeviceRec>) returns (r: Result<int, ConvertError>)
    ensures r.Failure? <==> exists i :: 0 <= i < |devs| && devs[i].ports == []
    ensures r.Failure? ==> r.error == MalformedNumber
    ensures r.Success? ==> r.value == PortMax(devs)
  {
    var maxPort := 0;
    var i := 0;
    while i < |devs|
      invariant 0 <= i <= |devs|
      invariant forall j :: 0 <= j < i ==> devs[j].ports != []
      invariant maxPort == PortMax(devs[..i])
    {
      if devs[i].ports == [] {
        return Failure(MalformedNumber);
      }
      var localMax := MaxOf(devs[i].ports);
      if localMax > maxPort {
        maxPort := localMax;
      }
      assert devs[..i + 1][..i] == devs[..i];
      i := i + 1;
    }
    assert devs[..i] == devs;
    r := Success(maxPort);
  }

  /** A link that takes part in the base rate: `multi` absent or <= 1. */
  predicate IsPlain(l: LinkRec) {
    !IsAggregated(l)
  }

  /** Two plain links have different capacities. */
  predicate RatesDisagree(links: seq<LinkRec>) {
    exists i, j :: 0 <= i < |links| && 0 <= j < |links| && IsPlain(links[i]) && IsPlain(links[j]) &&
      links[i].capacity != links[j].capacity
  }

  /** The base rate (convertformat.py:63-72): all plain links must share one
      capacity, and at least one plain link must exist. */
  method BaseRate(links: seq<LinkRec>) returns (r: Result<int, ConvertError>)
    ensures r.Success? ==>
      (exists i :: 0 <= i < |links| && IsPlain(links[i])) &&
      forall i :: 0 <= i < |links| && IsPlain(links[i]) ==> links[i].capacity == r.value
    ensures r == Failure(InconsistentBaseRate) <==> RatesDisagree(links)
    ensures r == Failure(NoBaseRate) <==> forall i :: 0 <= i < |links| ==> !IsPlain(links[i])
    ensures r.Failure? ==> r.error in {InconsistentBaseRate, NoBaseRate}
    ensures r == BaseRateSpec(links)
  {
    var rate: Option<int> := None;
    var i := 0;
    while i < |links|
      invariant 0 <= i <= |links|
      invariant rate.None? <==> forall j :: 0 <= j < i ==> !IsPlain(links[j])
      invariant rate.Some? ==> forall j :: 0 <= j < i && IsPlain(links[j]) ==> links[j].capacity == rate.value
    {
      if IsPlain(links[i]) {
        var localRate := links[i].capacity;
        if rate.None? {
          rate := Some(localRate);
        } else if rate.value != localRate {
          var j :| 0 <= j < i && IsPlain(links[j]);
          assert links[j].capacity != links[i].capacity;
          return Failure(InconsistentBaseRate);
        }
      }
      i := i + 1;
    }
    if rate.None? {
      return Failure(NoBaseRate);
    }
    var j :| 0 <= j < i && IsPlain(links[j]);
    r := Success(rate.value);
  }

  /** The outcome of the base-rate loop: no plain link, two plain links
      that disagree, or the capacity all plain links share. */
  ghost function BaseRateSpec(links: seq<LinkRec>): Result<int, ConvertError> {
    if forall i :: 0 <= i < |links| ==> !IsPlain(links[i]) then Failure(NoBaseRate)
    else if RatesDisagree(links) then Failure(InconsistentBaseRate)
    else
      var i :| 0 <= i < |links| && IsPlain(links[i]);
      Success(links[i].capacity)
  }

  /** A base rate is the capacity of every plain link. */
  lemma BaseRateOfPlain(links: seq<LinkRec>, rate: int)
    requires BaseRateSpec(links) == Success(rate)
    ensures forall j :: 0 <= j < |links| && IsPlain(links[j]) ==> links[j].capacity == rate
  {
  }

  /** What the expansion has produced so far: the switch elements, the new
      link elements appended to `resources`, the port counter and the
      port -> switch number index. */
  datatype Expansion = Expansion(
    switches: seq<DeviceRec>,
    added: seq<LinkRec>,
    maxPort: int,
    portSwitch: map<int, int>)

  /** Every indexed port belongs to a switch number that some switch has. */
  ghost predicate OwnersAreSwitches(e: Expansion) {
    forall p :: p in e.portSwitch ==> exists s :: 0 <= s < |e.switches| && e.switches[s].number == e.portSwitch[p]
  }

  /** `resources.find("switch[@number='n']")`: the first switch numbered n. */
  function FirstSwitch(switches: seq<DeviceRec>, number: int): (r: Option<nat>)
    ensures r.Some? ==> r.value < |switches| && switches[r.value].number == number
    ensures r.None? <==> forall s :: 0 <= s < |switches| ==> switches[s].number != number
  {
    if switches == [] then None
    else if switches[0].number == number then Some(0)
    else match FirstSwitch(switches[1..], number)
      case None => None
      case Some(s) => Some(s + 1)
  }

  /** `sw.set("ports", sw.get("ports") + "," + str(p))`. */
  function AppendPort(switches: seq<DeviceRec>, s: nat, p: int): seq<DeviceRec>
    requires s < |switches|
  {
    switches[s := switches[s].(ports := switches[s].ports + [p])]
  }

  /** The switches after `count` rounds of the inner loop of
      convertformat.py:91-96, which gives switch s1 the port base+2k+1 and
      then switch s2 the port base+2k+2 in round k. */
  function Duplicate(switches: seq<DeviceRec>, s1: nat, s2: nat, base: int, count: nat): (r: seq<DeviceRec>)
    requires s1 < |switches| && s2 < |switches|
    ensures |r| == |switches|
    decreases count
  {
    if count == 0 then switches
    else
      var prev := Duplicate(switches, s1, s2, base, count - 1);
      AppendPort(AppendPort(prev, s1, base + 2 * count - 1), s2, base + 2 * count)
  }

  /** The `count` links made by `SubElement` from the rewritten link `l`. */
  function Copies(l: LinkRec, base: int, count: nat): seq<LinkRec> {
    seq(count, k => l.(from := base + 2 * k + 1, to := base + 2 * k + 2))
  }

  /** The index entries for the new ports after `count` rounds. */
  function NewOwners(base: int, count: nat, n1: int, n2: int): map<int, int>
    decreases count
  {
    if count == 0 then map[]
    else NewOwners(base, count - 1, n1, n2)[base + 2 * count - 1 := n1][base + 2 * count := n2]
  }

  /** What `link.set('capacity', rate)` and `del link.attrib["multi"]` make
      of an aggregated link; other links are left as they are. */
  function Normalize(l: LinkRec, rate: int): LinkRec {
    if IsAggregated(l) then l.(capacity := rate, multi := None) else l
  }

  function NormalizeAll(links: seq<LinkRec>, rate: int): (r: seq<LinkRec>)
    ensures |r| == |links|
    ensures forall i :: 0 <= i < |links| ==> r[i] == Normalize(links[i], rate)
  {
    seq(|links|, i requires 0 <= i < |links| => Normalize(links[i], rate))
  }

  /** One iteration of the outer loop of convertformat.py:75-101. */
  function ExpandOne(l: LinkRec, rate: int, e: Expansion): (r: Result<Expansion, ConvertError>)
    requires OwnersAreSwitches(e)
  {
    if !IsAggregated(l) then Success(e)
    else if l.from !in e.portSwitch || l.to !in e.portSwitch then Failure(MultiLinkNotBetweenSwitches)
    else
      var n1, n2 := e.portSwitch[l.from], e.portSwitch[l.to];
      var s1, s2 := FirstSwitch(e.switches, n1).value, FirstSwitch(e.switches, n2).value;
      var count := l.multi.value - 1;
      Success(Expansion(
        Duplicate(e.switches, s1, s2, e.maxPort, count),
        e.added + Copies(Normalize(l, rate), e.maxPort, count),
        e.maxPort + 2 * count,
        e.portSwitch + NewOwners(e.maxPort, count, n1, n2)))
  }

  lemma {:induction false} NewOwnersValues(base: int, count: nat, n1: int, n2: int, p: int)
    ensures p in NewOwners(base, count, n1, n2) <==> base < p <= base + 2 * count
    ensures p in NewOwners(base, count, n1, n2) ==>
      NewOwners(base, count, n1, n2)[p] == (if (p - base) % 2 == 1 then n1 else n2)
  {
    if count > 0 {
      NewOwnersValues(base, count - 1, n1, n2, p);
    }
  }

  lemma DuplicateNumbers(switches: seq<DeviceRec>, s1: nat, s2: nat, base: int, count: nat)
    requires s1 < |switches| && s2 < |switches|
    ensures forall s :: 0 <= s < |switches| ==> Duplicate(switches, s1, s2, base, count)[s].number == switches[s].number
  {
  }

  lemma ExpandOneKeepsOwners(l: LinkRec, rate: int, e: Expansion)
    requires OwnersAreSwitches(e)
    ensures ExpandOne(l, rate, e).Success? ==> OwnersAreSwitches(ExpandOne(l, rate, e).value)
  {
    if IsAggregated(l) && l.from in e.portSwitch && l.to in e.portSwitch {
      var e' := ExpandOne(l, rate, e).value;
      var n1, n2 := e.portSwitch[l.from], e.portSwitch[l.to];
      var s1, s2 := FirstSwitch(e.switches, n1).value, FirstSwitch(e.switches, n2).value;
      DuplicateNumbers(e.switches, s1, s2, e.maxPort, l.multi.value - 1);
      forall p | p in e'.portSwitch
        ensures exists s :: 0 <= s < |e'.switches| && e'.switches[s].number == e'.portSwitch[p]
      {
        NewOwnersValues(e.maxPort, l.multi.value - 1, n1, n2, p);
        if p in NewOwners(e.maxPort, l.multi.value - 1, n1, n2) {
          assert e'.switches[s1].number == n1 && e'.switches[s2].number == n2;
        } else {
          var s :| 0 <= s < |e.switches| && e.switches[s].number == e.portSwitch[p];
          assert e'.switches[s].number == e'.portSwitch[p];
        }
      }
    }
  }

  /** The whole outer loop, over the links in document order. */
  function ExpandAll(links: seq<LinkRec>, rate: int, e: Expansion): Result<Expansion, ConvertError>
    requires OwnersAreSwitches(e)
    decreases |links|
  {
    if links == [] then Success(e)
    else
      ExpandOneKeepsOwners(links[0], rate, e);
      match ExpandOne(links[0], rate, e)
      case Failure(err) => Failure(err)
      case Success(e') => ExpandAll(links[1..], rate, e')
  }

  /** The inner loop of convertformat.py:91-100 for one aggregated link,
      already rewritten to `normal`, between switches s1 and s2 (numbered n1
      and n2): each round takes two ids from the counter, gives one to each
      switch and appends a copy of the link joining them. */
  method DuplicateLink(normal: LinkRec, e: Expansion, s1: nat, s2: nat, n1: int, n2: int, count: nat)
    returns (e': Expansion)
    requires s1 < |e.switches| && s2 < |e.switches|
    ensures e' == Expansion(
      Duplicate(e.switches, s1, s2, e.maxPort, count),
      e.added + Copies(normal, e.maxPort, count),
      e.maxPort + 2 * count,
      e.portSwitch + NewOwners(e.maxPort, count, n1, n2))
  {
    var base := e.maxPort;
    var switches, added, maxPort, portSwitch := e.switches, e.added, e.maxPort, e.portSwitch;
    var k := 0;
    while k < count
      invariant 0 <= k <= count
      invariant switches == Duplicate(e.switches, s1, s2, base, k)
      invariant maxPort == base + 2 * k
      invariant portSwitch == e.portSwitch + NewOwners(base, k, n1, n2)
      invariant added == e.added + Copies(normal, base, k)
    {
      maxPort := maxPort + 1;
      switches := AppendPort(switches, s1, maxPort);
      portSwitch := portSwitch[maxPort := n1];
      maxPort := maxPort + 1;
      switches := AppendPort(switches, s2, maxPort);
      portSwitch := portSwitch[maxPort := n2];
      added := added + [normal.(from := maxPort - 1, to := maxPort)];
      DuplicateRound(normal, e.portSwitch, base, k, n1, n2);
      k := k + 1;
    }
    e' := Expansion(switches, added, maxPort, portSwitch);
  }

  /** One round of the inner loop, on the links and on the index. */
  lemma DuplicateRound(normal: LinkRec, start: map<int, int>, base: int, k: nat, n1: int, n2: int)
    ensures Copies(normal, base, k + 1) ==
      Copies(normal, base, k) + [normal.(from := base + 2 * k + 1, to := base + 2 * k + 2)]
    ensures start + NewOwners(base, k + 1, n1, n2) ==
      (start + NewOwners(base, k, n1, n2))[base + 2 * k + 1 := n1][base + 2 * k + 2 := n2]
  {
  }

  lemma ExpandAllStep(links: seq<LinkRec>, i: int, rate: int, e: Expansion)
    requires 0 <= i < |links| && OwnersAreSwitches(e)
    ensures ExpandOne(links[i], rate, e).Success? ==> OwnersAreSwitches(ExpandOne(links[i], rate, e).value)
    ensures ExpandAll(links[i..], rate, e) ==
      match ExpandOne(links[i], rate, e)
      case Failure(err) => Failure(err)
      case Success(e') => ExpandAll(links[i + 1..], rate, e')
  {
    ExpandOneKeepsOwners(links[i], rate, e);
    assert links[i..][0] == links[i] && links[i..][1..] == links[i + 1..];
  }

  lemma NormalizeStep(links: seq<LinkRec>, i: int, rate: int)
    requires 0 <= i < |links|
    ensures NormalizeAll(links[..i + 1], rate) == NormalizeAll(links[..i], rate) + [Normalize(links[i], rate)]
  {
  }

  /** One pass of the outer loop body of convertformat.py:76-101 for one
      link: nothing for a plain link; for an aggregated link the rewritten
      link, the switch lookup and the inner loop. */
  method ExpandStep(link: LinkRec, rate: int, e: Expansion) returns (r: Result<Expansion, ConvertError>)
    requires OwnersAreSwitches(e)
    ensures r == ExpandOne(link, rate, e)
  {
    if !IsAggregated(link) {
      return Success(e);
    }
    var normal := Normalize(link, rate);
    if link.from !in e.portSwitch || link.to !in e.portSwitch {
      return Failure(MultiLinkNotBetweenSwitches);
    }
    var n1, n2 := e.portSwitch[link.from], e.portSwitch[link.to];
    var s1, s2 := FirstSwitch(e.switches, n1).value, FirstSwitch(e.switches, n2).value;
    var e' := DuplicateLink(normal, e, s1, s2, n1, n2, link.multi.value - 1);
    r := Success(e');
  }

  lemma ExpandOneAdds(l: LinkRec, rate: int, e: Expansion)
    requires OwnersAreSwitches(e) && ExpandOne(l, rate, e).Success?
    ensures ExpandOne(l, rate, e).value.added == e.added + Copies(Normalize(l, rate), e.maxPort, Extra(l))
  {
  }

  lemma DocStep(links: seq<LinkRec>, i: int, rate: int, added: seq<LinkRec>, more: seq<LinkRec>)
    requires 0 <= i < |links|
    ensures (NormalizeAll(links[..i], rate) + links[i..] + added)[i := Normalize(links[i], rate)] + more
      == NormalizeAll(links[..i + 1], rate) + links[i + 1..] + (added + more)
  {
    assert NormalizeAll(links[..i + 1], rate) == NormalizeAll(links[..i], rate) + [Normalize(links[i], rate)];
  }

  /** The expansion loop (convertformat.py:75-101). The link elements are
      rewritten in place and the new ones appended after all the others,
      so `doc` is the `link` list of `resources` in document order. */
  method ExpandLinks(links: seq<LinkRec>, rate: int, e0: Expansion)
    returns (r: Result<Expansion, ConvertError>, doc: seq<LinkRec>)
    requires OwnersAreSwitches(e0) && e0.added == []
    ensures r == ExpandAll(links, rate, e0)
    ensures r.Success? ==> doc == NormalizeAll(links, rate) + r.value.added
  {
    var e := e0;
    doc := links;
    var i := 0;
    while i < |links|
      invariant 0 <= i <= |links|
      invariant OwnersAreSwitches(e)
      invariant ExpandAll(links, rate, e0) == ExpandAll(links[i..], rate, e)
      invariant doc == NormalizeAll(links[..i], rate) + links[i..] + e.added
    {
      ExpandAllStep(links, i, rate, e);
      var step := ExpandStep(links[i], rate, e);
      if step.Failure? {
        return step, doc;
      }
      ExpandOneAdds(links[i], rate, e);
      var more := Copies(Normalize(links[i], rate), e.maxPort, Extra(links[i]));
      DocStep(links, i, rate, e.added, more);
      doc := doc[i := Normalize(links[i], rate)] + more;
      e := step.value;
      i := i + 1;
    }
    assert links[..i] == links && links[i..] == [];
    r := Success(e);
  }

  // ---------------------------------------------------------------------
  // Properties of the expansion


  /** What the inner loop does to the switches: s1 gets base+1, base+3, ...
      and s2 gets base+2, base+4, ... (both lists, interleaved, when s1 and
      s2 are the same switch); every other switch is unchanged. */
  lemma {:induction false} DuplicatePorts(switches: seq<DeviceRec>, s1: nat, s2: nat, base: int, count: nat)
    requires s1 < |switches| && s2 < |switches|
    ensures forall s :: 0 <= s < |switches| ==> Duplicate(switches, s1, s2, base, count)[s].number == switches[s].number
    ensures forall s :: 0 <= s < |switches| && s != s1 && s != s2 ==>
      Duplicate(switches, s1, s2, base, count)[s] == switches[s]
    ensures s1 != s2 ==>
      Duplicate(switches, s1, s2, base, count)[s1].ports == switches[s1].ports + seq(count, k => base + 2 * k + 1) &&
      Duplicate(switches, s1, s2, base, count)[s2].ports == switches[s2].ports + seq(count, k => base + 2 * k + 2)
    ensures s1 == s2 ==>
      Duplicate(switches, s1, s2, base, count)[s1].ports == switches[s1].ports + seq(2 * count, k => base + k + 1)
  {
    DuplicateOthers(switches, s1, s2, base, count);
    if s1 != s2 {
      DuplicateApart(switches, s1, s2, base, count);
    } else {
      DuplicateSame(switches, s1, base, count);
    }
  }

  lemma {:induction false} DuplicateOthers(switches: seq<DeviceRec>, s1: nat, s2: nat, base: int, count: nat)
    requires s1 < |switches| && s2 < |switches|
    ensures forall s :: 0 <= s < |switches| ==> Duplicate(switches, s1, s2, base, count)[s].number == switches[s].number
    ensures forall s :: 0 <= s < |switches| && s != s1 && s != s2 ==>
      Duplicate(switches, s1, s2, base, count)[s] == switches[s]
    decreases count
  {
    if count > 0 {
      DuplicateOthers(switches, s1, s2, base, count - 1);
    }
  }

  lemma {:induction false} DuplicateApart(switches: seq<DeviceRec>, s1: nat, s2: nat, base: int, count: nat)
    requires s1 < |switches| && s2 < |switches| && s1 != s2
    ensures Duplicate(switches, s1, s2, base, count)[s1].ports == switches[s1].ports + seq(count, k => base + 2 * k + 1)
    ensures Duplicate(switches, s1, s2, base, count)[s2].ports == switches[s2].ports + seq(count, k => base + 2 * k + 2)
    decreases count
  {
    if count > 0 {
      DuplicateApart(switches, s1, s2, base, count - 1);
      SeqStepSnoc(base, 1, count);
      SeqStepSnoc(base, 2, count);
    }
  }

  lemma {:induction false} DuplicateSame(switches: seq<DeviceRec>, s1: nat, base: int, count: nat)
    requires s1 < |switches|
    ensures Duplicate(switches, s1, s1, base, count)[s1].ports == switches[s1].ports + seq(2 * count, k => base + k + 1)
    decreases count
  {
    if count > 0 {
      DuplicateSame(switches, s1, base, count - 1);
      assert seq(2 * count, k => base + k + 1)
        == seq(2 * (count - 1), k => base + k + 1) + [base + 2 * count - 1, base + 2 * count];
    }
  }

  /** Every other id from base + off, one more. */
  lemma SeqStepSnoc(base: int, off: int, count: nat)
    requires count > 0
    ensures seq(count, k => base + 2 * k + off) == seq(count - 1, k => base + 2 * k + off) + [base + 2 * count - 2 + off]
  {
  }

  /** Appending an id above every listed id keeps the ids distinct. */
  lemma AppendFresh(es: seq<DeviceRec>, switches: seq<DeviceRec>, s: nat, p: int)
    requires s < |switches|
    requires PortsDistinct(es + switches) && PortsAtMost(es + switches, p - 1)
    ensures PortsDistinct(es + AppendPort(switches, s, p)) && PortsAtMost(es + AppendPort(switches, s, p), p)
  {
    var before := es + switches;
    var d := es + AppendPort(switches, s, p);
    var t := |es| + s;
    assert |d| == |before|;
    assert forall i :: 0 <= i < |d| && i != t ==> d[i] == before[i];
    assert d[t].ports == before[t].ports + [p];
    forall i, a | 0 <= i < |d| && 0 <= a < |d[i].ports|
      ensures d[i].ports[a] <= p
    {
      if i != t || a != |before[t].ports| {
        assert d[i].ports[a] == before[i].ports[a];
      }
    }
    forall i, j, a, b |
      0 <= i < |d| && 0 <= j < |d| && 0 <= a < |d[i].ports| && 0 <= b < |d[j].ports| &&
      d[i].ports[a] == d[j].ports[b]
      ensures i == j && a == b
    {
      var newA := i == t && a == |before[t].ports|;
      var newB := j == t && b == |before[t].ports|;
      if !newA {
        assert d[i].ports[a] == before[i].ports[a];
      }
      if !newB {
        assert d[j].ports[b] == before[j].ports[b];
      }
    }
  }

  /** The inner loop keeps all port ids (end systems' and switches')
      distinct, and raises their bound to the new counter value. */
  lemma {:induction false} DuplicateFresh(es: seq<DeviceRec>, switches: seq<DeviceRec>, s1: nat, s2: nat, base: int, count: nat)
    requires s1 < |switches| && s2 < |switches|
    requires PortsDistinct(es + switches) && PortsAtMost(es + switches, base)
    ensures PortsDistinct(es + Duplicate(switches, s1, s2, base, count))
    ensures PortsAtMost(es + Duplicate(switches, s1, s2, base, count), base + 2 * count)
    decreases count
  {
    if count > 0 {
      DuplicateFresh(es, switches, s1, s2, base, count - 1);
      FreshRound(es, Duplicate(switches, s1, s2, base, count - 1), s1, s2, base + 2 * count - 2);
    }
  }

  /** One round of the inner loop: ids top+1 and top+2 go to s1 and s2. */
  lemma FreshRound(es: seq<DeviceRec>, prev: seq<DeviceRec>, s1: nat, s2: nat, top: int)
    requires s1 < |prev| && s2 < |prev|
    requires PortsDistinct(es + prev) && PortsAtMost(es + prev, top)
    ensures var d := AppendPort(AppendPort(prev, s1, top + 1), s2, top + 2);
      PortsDistinct(es + d) && PortsAtMost(es + d, top + 2)
  {
    AppendFresh(es, prev, s1, top + 1);
    AppendFresh(es, AppendPort(prev, s1, top + 1), s2, top + 2);
  }

  /** The links that take the fresh ids base+1 .. base+2n, two by two, at
      the base rate and without `multi`. */
  function FreshLinks(base: int, rate: int, n: nat): seq<LinkRec> {
    seq(n, t => LinkRec(base + 2 * t + 1, base + 2 * t + 2, rate, None))
  }

  lemma LinksAssoc(x: seq<LinkRec>, y: seq<LinkRec>, z: seq<LinkRec>)
    ensures (x + y) + z == x + (y + z)
  {
  }

  lemma FreshLinksSplit(base: int, rate: int, a: nat, b: nat)
    ensures FreshLinks(base, rate, a) + FreshLinks(base + 2 * a, rate, b) == FreshLinks(base, rate, a + b)
  {
  }

  /** The copies of a rewritten aggregated link keep nothing of it but its
      (new) capacity. */
  lemma CopiesAreFresh(l: LinkRec, rate: int, base: int)
    ensures Copies(Normalize(l, rate), base, Extra(l)) == FreshLinks(base, rate, Extra(l))
  {
  }

  /** One aggregated link of multiplicity M whose ends are indexed: the
      step succeeds; when the two ends are on different switches s1 and s2,
      each gets exactly M-1 new ids, taken in turn from the counter; no
      other switch changes; the M-1 new links join those ids pairwise, the
      `from` end on the switch that owns the link's `from` port. */
  lemma ExpandOneShape(l: LinkRec, rate: int, e: Expansion, s1: nat, s2: nat)
    requires OwnersAreSwitches(e) && IsAggregated(l)
    requires l.from in e.portSwitch && l.to in e.portSwitch
    requires FirstSwitch(e.switches, e.portSwitch[l.from]) == Some(s1)
    requires FirstSwitch(e.switches, e.portSwitch[l.to]) == Some(s2)
    ensures ExpandOne(l, rate, e).Success?
    ensures ExpandOne(l, rate, e).value.maxPort == e.maxPort + 2 * (l.multi.value - 1)
    ensures ExpandOne(l, rate, e).value.added == e.added + FreshLinks(e.maxPort, rate, l.multi.value - 1)
    ensures s1 != s2 ==>
      ExpandOne(l, rate, e).value.switches[s1].ports
        == e.switches[s1].ports + seq(l.multi.value - 1, k => e.maxPort + 2 * k + 1)
    ensures s1 != s2 ==>
      ExpandOne(l, rate, e).value.switches[s2].ports
        == e.switches[s2].ports + seq(l.multi.value - 1, k => e.maxPort + 2 * k + 2)
    ensures forall s :: 0 <= s < |e.switches| && s != s1 && s != s2 ==>
      ExpandOne(l, rate, e).value.switches[s] == e.switches[s]
  {
    DuplicatePorts(e.switches, s1, s2, e.maxPort, l.multi.value - 1);
    CopiesAreFresh(l, rate, e.maxPort);
  }

  /** One link's share of the allocation: 2 ids per added link. */
  lemma ExpandOneStep(l: LinkRec, rate: int, e: Expansion)
    requires OwnersAreSwitches(e) && ExpandOne(l, rate, e).Success?
    ensures ExpandOne(l, rate, e).value.maxPort == e.maxPort + 2 * Extra(l)
    ensures ExpandOne(l, rate, e).value.added == e.added + FreshLinks(e.maxPort, rate, Extra(l))
  {
    ExpandOneAdds(l, rate, e);
    CopiesAreFresh(l, rate, e.maxPort);
  }

  /** Port allocation over the whole document: the counter advances by two
      per added link, and the added links are, in order, the links joining
      max+1 to max+2, max+3 to max+4, ..., at the base rate and without
      `multi`. So every new id is above the initial maximum and no id is
      handed out twice. */
  lemma {:induction false} ExpandAllAllocation(links: seq<LinkRec>, rate: int, e: Expansion)
    requires OwnersAreSwitches(e) && ExpandAll(links, rate, e).Success?
    ensures ExpandAll(links, rate, e).value.maxPort == e.maxPort + 2 * TotalExtra(links)
    ensures ExpandAll(links, rate, e).value.added == e.added + FreshLinks(e.maxPort, rate, TotalExtra(links))
    decreases |links|
  {
    if links != [] {
      ExpandOneKeepsOwners(links[0], rate, e);
      var mid := ExpandOne(links[0], rate, e).value;
      assert ExpandAll(links, rate, e) == ExpandAll(links[1..], rate, mid);
      var x, y := Extra(links[0]), TotalExtra(links[1..]);
      assert TotalExtra(links) == x + y;
      ExpandOneStep(links[0], rate, e);
      ExpandAllAllocation(links[1..], rate, mid);
      AllocationChain(e, mid, ExpandAll(links, rate, e).value, rate, x, y);
    }
  }

  /** Two stretches of allocation make one. */
  lemma AllocationChain(e: Expansion, mid: Expansion, last: Expansion, rate: int, x: nat, y: nat)
    requires mid.maxPort == e.maxPort + 2 * x && mid.added == e.added + FreshLinks(e.maxPort, rate, x)
    requires last.maxPort == mid.maxPort + 2 * y && last.added == mid.added + FreshLinks(mid.maxPort, rate, y)
    ensures last.maxPort == e.maxPort + 2 * (x + y)
    ensures last.added == e.added + FreshLinks(e.maxPort, rate, x + y)
  {
    FreshLinksSplit(e.maxPort, rate, x, y);
    LinksAssoc(e.added, FreshLinks(e.maxPort, rate, x), FreshLinks(mid.maxPort, rate, y));
  }

  /** The expansion keeps every port id of the document distinct and within
      the counter, given that they were distinct and within it before. */
  lemma {:induction false} ExpandAllFresh(es: seq<DeviceRec>, links: seq<LinkRec>, rate: int, e: Expansion)
    requires OwnersAreSwitches(e) && ExpandAll(links, rate, e).Success?
    requires PortsDistinct(es + e.switches) && PortsAtMost(es + e.switches, e.maxPort)
    ensures PortsDistinct(es + ExpandAll(links, rate, e).value.switches)
    ensures PortsAtMost(es + ExpandAll(links, rate, e).value.switches, ExpandAll(links, rate, e).value.maxPort)
    decreases |links|
  {
    if links != [] {
      ExpandOneKeepsOwners(links[0], rate, e);
      var mid := ExpandOne(links[0], rate, e).value;
      if IsAggregated(links[0]) {
        var s1 := FirstSwitch(e.switches, e.portSwitch[links[0].from]).value;
        var s2 := FirstSwitch(e.switches, e.portSwitch[links[0].to]).value;
        DuplicateFresh(es, e.switches, s1, s2, e.maxPort, links[0].multi.value - 1);
      }
      ExpandAllFresh(es, links[1..], rate, mid);
    }
  }

  /** An aggregated link with an end that no switch owns aborts the
      conversion, and nothing else does. */
  lemma ExpandOneFailure(l: LinkRec, rate: int, e: Expansion)
    requires OwnersAreSwitches(e)
    ensures ExpandOne(l, rate, e).Failure? <==>
      IsAggregated(l) && (l.from !in e.portSwitch || l.to !in e.portSwitch)
    ensures ExpandOne(l, rate, e).Failure? ==> ExpandOne(l, rate, e).error == MultiLinkNotBetweenSwitches
  {
  }

  /** After a successful expansion every link of the document carries the
      base rate and none is aggregated: rewritten aggregated links and their
      copies by construction, plain links because the base-rate check let
      them through. Plain links are kept as they were, `multi` included. */
  lemma UniformCapacity(links: seq<LinkRec>, rate: int, e: Expansion)
    requires OwnersAreSwitches(e) && e.added == [] && ExpandAll(links, rate, e).Success?
    requires forall i :: 0 <= i < |links| && IsPlain(links[i]) ==> links[i].capacity == rate
    ensures |NormalizeAll(links, rate) + ExpandAll(links, rate, e).value.added| == |links| + TotalExtra(links)
    ensures forall l :: l in NormalizeAll(links, rate) + ExpandAll(links, rate, e).value.added ==>
      l.capacity == rate && !IsAggregated(l)
    ensures forall i :: 0 <= i < |links| && IsPlain(links[i]) ==> NormalizeAll(links, rate)[i] == links[i]
    ensures forall i :: 0 <= i < |links| && IsAggregated(links[i]) ==>
      NormalizeAll(links, rate)[i] == links[i].(capacity := rate, multi := None)
  {
    ExpandAllAllocation(links, rate, e);
    var added := ExpandAll(links, rate, e).value.added;
    assert added == FreshLinks(e.maxPort, rate, TotalExtra(links));
  }

  /** The expansion keeps the switches, their order and their numbers;
      it only appends ports. */
  lemma {:induction false} ExpandAllNumbers(links: seq<LinkRec>, rate: int, e: Expansion)
    requires OwnersAreSwitches(e) && ExpandAll(links, rate, e).Success?
    ensures |ExpandAll(links, rate, e).value.switches| == |e.switches|
    ensures forall s :: 0 <= s < |e.switches| ==> ExpandAll(links, rate, e).value.switches[s].number == e.switches[s].number
    decreases |links|
  {
    if links != [] {
      ExpandOneKeepsOwners(links[0], rate, e);
      if IsAggregated(links[0]) {
        var s1 := FirstSwitch(e.switches, e.portSwitch[links[0].from]).value;
        var s2 := FirstSwitch(e.switches, e.portSwitch[links[0].to]).value;
        DuplicateNumbers(e.switches, s1, s2, e.maxPort, links[0].multi.value - 1);
      }
      ExpandAllNumbers(links[1..], rate, ExpandOne(links[0], rate, e).value);
    }
  }

  /** The only way the expansion fails. */
  lemma {:induction false} ExpandAllError(links: seq<LinkRec>, rate: int, e: Expansion)
    requires OwnersAreSwitches(e)
    ensures ExpandAll(links, rate, e).Failure? ==> ExpandAll(links, rate, e).error == MultiLinkNotBetweenSwitches
    decreases |links|
  {
    if links != [] {
      ExpandOneKeepsOwners(links[0], rate, e);
      if ExpandOne(links[0], rate, e).Success? {
        ExpandAllError(links[1..], rate, ExpandOne(links[0], rate, e).value);
      }
    }
  }
}
