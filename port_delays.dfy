/** The per-port delay tables (algo.h:191-251) and the parts of the Voq
    schemes that do not compute delays (delay.cpp:79-144, 162-192): the
    overload guard of `calcCommon`, the single entry `calcFirst` writes,
    and `Voq::completeCheck`. The delay formulas themselves are not part
    of this model; the values a calculation stores come in as
    parameters. Doubles are reals. */
module PortDelays {
  import OrderedMap

  /** `Error`. */
  datatype Error = Success | Cycle | BadForVoq

  // ---------------------------------------------------------------------
  // DelayData

  /** The fields of a `DelayData`: `_dmin`, `_jit`, `_dmax`, `_ready`. */
  datatype DelayData = DelayData(dminField: real, jitField: real, dmaxField: real, isReady: bool)

  predicate Ready(d: DelayData) {
    d.isReady
  }

  /** The accessors answer -1 while the data is not ready. */
  function Dmin(d: DelayData): real {
    if d.isReady then d.dminField else -1.0
  }

  function Jit(d: DelayData): real {
    if d.isReady then d.jitField else -1.0
  }

  function Dmax(d: DelayData): real {
    if d.isReady then d.dmaxField else -1.0
  }

  /** `DelayData()`: not ready, and every accessor answers -1. */
  function NotReady(): (d: DelayData)
    ensures !Ready(d) && Dmin(d) == -1.0 && Jit(d) == -1.0 && Dmax(d) == -1.0
  {
    DelayData(-2.0, -1.0, -1.0, false)
  }

  /** `DelayData(dmin, jit)`: ready, with the maximum delay the minimum
      plus the jitter. */
  function MakeDelay(dmin: real, jit: real): (d: DelayData)
    ensures Ready(d) && Dmin(d) == dmin && Jit(d) == jit && Dmax(d) == dmin + jit
    ensures Consistent(d)
  {
    DelayData(dmin, jit, dmin + jit, true)
  }

  /** What both constructors guarantee. */
  predicate Consistent(d: DelayData) {
    d.isReady ==> d.dmaxField == d.dminField + d.jitField
  }

  /** Whatever a table holds, an entry either is ready with
      `dmax == dmin + jit` or answers -1 everywhere. */
  lemma ConsistentAccessors(d: DelayData)
    requires Consistent(d)
    ensures Ready(d) ==> Dmax(d) == Dmin(d) + Jit(d)
    ensures !Ready(d) ==> Dmin(d) == -1.0 && Jit(d) == -1.0 && Dmax(d) == -1.0
  {
  }

  predicate AllConsistent(m: map<int, DelayData>) {
    forall vl :: vl in m ==> Consistent(m[vl])
  }

  /** `PortDelays::getFromMap`: the stored entry of the virtual link, or a
      not-ready `DelayData` when there is none. */
  function GetFromMap(vl: int, m: map<int, DelayData>): (d: DelayData)
    ensures vl in m ==> d == m[vl]
    ensures vl !in m ==> !Ready(d) && Dmin(d) == -1.0 && Jit(d) == -1.0 && Dmax(d) == -1.0
    ensures AllConsistent(m) ==> Consistent(d)
  {
    if vl in m then m[vl] else NotReady()
  }

  // ---------------------------------------------------------------------
  // The delay tables of one input port under a Voq scheme

  class VoqDelays {
    var delays: map<int, DelayData>
    var inDelays: map<int, DelayData>
    var ready: bool

    /** Every stored entry came from one of the constructors. */
    ghost predicate Valid()
      reads this
    {
      AllConsistent(delays) && AllConsistent(inDelays)
    }

    constructor ()
      ensures Valid() && !ready && delays == map[] && inDelays == map[]
    {
      delays := map[];
      inDelays := map[];
      ready := false;
    }

    /** `setInDelays`: replaces the whole input table and marks the port
        ready. */
    method SetInDelays(m: map<int, DelayData>)
      requires Valid() && AllConsistent(m)
      modifies this
      ensures Valid() && inDelays == m && ready && delays == old(delays)
    {
      inDelays := m;
      ready := true;
    }

    /** `getDelay`. */
    function GetDelay(vl: int): (d: DelayData)
      reads this
      requires Valid()
      ensures Consistent(d) && (vl !in delays ==> !Ready(d))
    {
      GetFromMap(vl, delays)
    }

    /** `VoqA::calcFirst` / `VoqB::calcFirst`: store the first-hop delay
        of the virtual link, given its minimum and its jitter. */
    method CalcFirst(vl: int, dmin: real, jit: real) returns (r: Error)
      requires Valid()
      modifies this
      ensures Valid() && r == Success
      ensures delays == old(delays)[vl := MakeDelay(dmin, jit)]
      ensures inDelays == old(inDelays) && ready == old(ready)
    {
      delays := delays[vl := MakeDelay(dmin, jit)];
      return Success;
    }

    /** `VoqA::calcCommon` / `VoqB::calcCommon`: refuse the virtual link,
        writing nothing, when the load from the previous output port
        exceeds the queue length; otherwise store its delay. */
    method CalcCommon(vl: int, outPrevLoadSum: int, voqL: int, dmin: real, jit: real) returns (r: Error)
      requires Valid()
      modifies this
      ensures Valid() && inDelays == old(inDelays) && ready == old(ready)
      ensures outPrevLoadSum > voqL ==> r == BadForVoq && delays == old(delays)
      ensures outPrevLoadSum <= voqL ==> r == Success && delays == old(delays)[vl := MakeDelay(dmin, jit)]
    {
      if outPrevLoadSum > voqL {
        return BadForVoq;
      }
      delays := delays[vl := MakeDelay(dmin, jit)];
      return Success;
    }
  }

  /** After `calcFirst`, exactly the entry of that virtual link differs. */
  lemma CalcFirstOnlyOne(old_: map<int, DelayData>, vl: int, dmin: real, jit: real, other: int)
    requires other != vl
    ensures GetFromMap(other, old_[vl := MakeDelay(dmin, jit)]) == GetFromMap(other, old_)
    ensures Ready(GetFromMap(vl, old_[vl := MakeDelay(dmin, jit)]))
  {
  }

  // ---------------------------------------------------------------------
  // Voq::completeCheck

  /** A child of a vnode as `completeCheck` reads it: the output port it
      leaves (`outPrev`) and the `outPrevLoad` table of the Voq at its
      input port. */
  datatype Successor = Successor(outPrev: int, load: map<int, int>)

  /** A port of the switch as `getAllPorts` lists it: its id and, for
      each vnode `getAllVnodes` lists, that vnode's children. */
  datatype SwitchPort = SwitchPort(id: int, vnodes: seq<seq<Successor>>)

  /** A `defaultIntMap` read: 0 for a missing key. */
  function Get(m: map<int, int>, k: int): int {
    if k in m then m[k] else 0
  }

  /** The `visited` set and the `inPortLoad` table. */
  datatype Tally = Tally(visited: set<int>, load: map<int, int>)

  /** `inPortLoad.Inc(port2->id, l.Get(port2->id))` for each port id. */
  function AddLoads(load: map<int, int>, ids: seq<int>, l: map<int, int>): map<int, int>
    decreases |ids|
  {
    if ids == [] then load
    else AddLoads(load[ids[0] := Get(load, ids[0]) + Get(l, ids[0])], ids[1..], l)
  }

  /** One child: skipped when its output port was seen, otherwise its
      load is added for every port of the switch. */
  function Visit(st: Tally, s: Successor, ids: seq<int>): Tally {
    if s.outPrev in st.visited then st
    else Tally(st.visited + {s.outPrev}, AddLoads(st.load, ids, s.load))
  }

  function Run(st: Tally, ss: seq<Successor>, ids: seq<int>): Tally
    decreases |ss|
  {
    if ss == [] then st else Run(Visit(st, ss[0], ids), ss[1..], ids)
  }

  function Concat(vs: seq<seq<Successor>>): seq<Successor>
    decreases |vs|
  {
    if vs == [] then [] else vs[0] + Concat(vs[1..])
  }

  /** Every child the three nested loops meet, in order. */
  function Flatten(ports: seq<SwitchPort>): seq<Successor>
    decreases |ports|
  {
    if ports == [] then [] else Concat(ports[0].vnodes) + Flatten(ports[1..])
  }

  function Ids(ports: seq<SwitchPort>): (ids: seq<int>)
    ensures |ids| == |ports| && forall k :: 0 <= k < |ports| ==> ids[k] == ports[k].id
  {
    seq(|ports|, k requires 0 <= k < |ports| => ports[k].id)
  }

  /** The accumulated loads once every child has been visited. */
  function InPortLoad(ports: seq<SwitchPort>): map<int, int> {
    Run(Tally({}, map[]), Flatten(ports), Ids(ports)).load
  }

  lemma {:induction false} RunAppend(st: Tally, a: seq<Successor>, b: seq<Successor>, ids: seq<int>)
    ensures Run(st, a + b, ids) == Run(Run(st, a, ids), b, ids)
    decreases |a|
  {
    if a != [] {
      assert (a + b)[0] == a[0] && (a + b)[1..] == a[1..] + b;
      RunAppend(Visit(st, a[0], ids), a[1..], b, ids);
    } else {
      assert a + b == b;
    }
  }

  method AddAll(load0: map<int, int>, ids: seq<int>, l: map<int, int>) returns (load: map<int, int>)
    ensures load == AddLoads(load0, ids, l)
  {
    load := load0;
    for i := 0 to |ids|
      invariant AddLoads(load, ids[i..], l) == AddLoads(load0, ids, l)
    {
      assert ids[i..][1..] == ids[i + 1..];
      load := load[ids[i] := Get(load, ids[i]) + Get(l, ids[i])];
    }
  }

  /** The loop over one vnode's children. */
  method VisitChildren(st0: Tally, ss: seq<Successor>, ids: seq<int>) returns (st: Tally)
    ensures st == Run(st0, ss, ids)
  {
    st := st0;
    for k := 0 to |ss|
      invariant Run(st, ss[k..], ids) == Run(st0, ss, ids)
    {
      assert ss[k..][1..] == ss[k + 1..];
      var s := ss[k];
      if s.outPrev in st.visited {
        continue;
      }
      var load := AddAll(st.load, ids, s.load);
      st := Tally(st.visited + {s.outPrev}, load);
    }
  }

  /** The loop over one port's vnodes. */
  method VisitVnodes(st0: Tally, vs: seq<seq<Successor>>, ids: seq<int>) returns (st: Tally)
    ensures st == Run(st0, Concat(vs), ids)
  {
    st := st0;
    for j := 0 to |vs|
      invariant Run(st, Concat(vs[j..]), ids) == Run(st0, Concat(vs), ids)
    {
      assert vs[j..][1..] == vs[j + 1..];
      RunAppend(st, vs[j], Concat(vs[j + 1..]), ids);
      st := VisitChildren(st, vs[j], ids);
    }
  }

  /** `Voq::completeCheck`: the load each input port of the switch
      receives, each output port of the next switches counted once, and
      `BadForVoq` when one exceeds `voqL`. */
  method CompleteCheck(ports: seq<SwitchPort>, voqL: int) returns (r: Error)
    ensures r == BadForVoq || r == Success
    ensures r == BadForVoq <==> exists p :: p in InPortLoad(ports) && InPortLoad(ports)[p] > voqL
  {
    var ids := Ids(ports);
    var st := Tally({}, map[]);
    for i := 0 to |ports|
      invariant Run(st, Flatten(ports[i..]), ids) == Run(Tally({}, map[]), Flatten(ports), ids)
    {
      assert ports[i..][1..] == ports[i + 1..];
      RunAppend(st, Concat(ports[i].vnodes), Flatten(ports[i + 1..]), ids);
      st := VisitVnodes(st, ports[i].vnodes, ids);
    }
    assert ports[|ports|..] == [];
    var load := st.load;
    assert load == InPortLoad(ports);
    var ks := OrderedMap.SortKeys(load.Keys);
    for i := 0 to |ks|
      invariant forall t :: 0 <= t < i ==> load[ks[t]] <= voqL
    {
      if load[ks[i]] > voqL {
        var p := ks[i];
        assert p in InPortLoad(ports) && InPortLoad(ports)[p] > voqL;
        return BadForVoq;
      }
    }
    forall p | p in load
      ensures load[p] <= voqL
    {
      OrderedMap.SortedKeysHas(load.Keys, p);
    }
    return Success;
  }

  // The loads `completeCheck` compares, stated without the loops

  /** The children whose output port comes up for the first time (and is
      not in seen), in order. */
  function Firsts(ss: seq<Successor>, seen: set<int>): seq<Successor>
    decreases |ss|
  {
    if ss == [] then []
    else if ss[0].outPrev in seen then Firsts(ss[1..], seen)
    else [ss[0]] + Firsts(ss[1..], seen + {ss[0].outPrev})
  }

  /** The sum of their loads towards input port p. */
  function Total(ss: seq<Successor>, p: int): int
    decreases |ss|
  {
    if ss == [] then 0 else Get(ss[0].load, p) + Total(ss[1..], p)
  }

  predicate Distinct(ids: seq<int>) {
    forall i, j :: 0 <= i < j < |ids| ==> ids[i] != ids[j]
  }

  lemma {:induction false} AddLoadsAt(load: map<int, int>, ids: seq<int>, l: map<int, int>, p: int)
    requires Distinct(ids)
    ensures Get(AddLoads(load, ids, l), p) == Get(load, p) + (if p in ids then Get(l, p) else 0)
    ensures p in AddLoads(load, ids, l) <==> p in load || p in ids
    decreases |ids|
  {
    if ids != [] {
      var load' := load[ids[0] := Get(load, ids[0]) + Get(l, ids[0])];
      assert Distinct(ids[1..]) by {
        assert forall i :: 0 <= i < |ids| - 1 ==> ids[1..][i] == ids[i + 1];
      }
      AddLoadsAt(load', ids[1..], l, p);
      assert p in ids <==> p == ids[0] || p in ids[1..];
      if p == ids[0] {
        assert p !in ids[1..] by {
          assert forall i :: 0 <= i < |ids| - 1 ==> ids[1..][i] == ids[i + 1];
        }
      }
    }
  }

  /** Running over the children adds, for every port of the switch, the
      loads of the children whose output port is new. */
  lemma {:induction false} RunAt(st: Tally, ss: seq<Successor>, ids: seq<int>, p: int)
    requires Distinct(ids) && p in ids
    ensures Get(Run(st, ss, ids).load, p) == Get(st.load, p) + Total(Firsts(ss, st.visited), p)
    decreases |ss|
  {
    if ss != [] {
      var st' := Visit(st, ss[0], ids);
      RunAt(st', ss[1..], ids, p);
      if ss[0].outPrev !in st.visited {
        AddLoadsAt(st.load, ids, ss[0].load, p);
      }
    }
  }

  /** An input port gets an entry once some child has been counted. */
  lemma {:induction false} RunKeys(st: Tally, ss: seq<Successor>, ids: seq<int>, p: int)
    requires Distinct(ids)
    ensures p in Run(st, ss, ids).load <==> p in st.load || (p in ids && Firsts(ss, st.visited) != [])
    decreases |ss|
  {
    if ss != [] {
      var st' := Visit(st, ss[0], ids);
      RunKeys(st', ss[1..], ids, p);
      if ss[0].outPrev !in st.visited {
        AddLoadsAt(st.load, ids, ss[0].load, p);
      }
    }
  }

  /** The load `completeCheck` accumulates for an input port: an entry
      for every port of the switch once some child was counted, holding
      the sum over the children whose output port comes up first. */
  lemma InPortLoadAt(ports: seq<SwitchPort>, p: int)
    requires Distinct(Ids(ports))
    ensures p in InPortLoad(ports) <==> p in Ids(ports) && Firsts(Flatten(ports), {}) != []
    ensures p in InPortLoad(ports) ==> InPortLoad(ports)[p] == Total(Firsts(Flatten(ports), {}), p)
  {
    RunKeys(Tally({}, map[]), Flatten(ports), Ids(ports), p);
    if p in InPortLoad(ports) {
      RunAt(Tally({}, map[]), Flatten(ports), Ids(ports), p);
    }
  }

  lemma ExceedsIff(load: map<int, int>, ids: seq<int>, fs: seq<Successor>, voqL: int)
    requires forall p :: p in load <==> p in ids && fs != []
    requires forall p :: p in load ==> load[p] == Total(fs, p)
    ensures (exists p :: p in load && load[p] > voqL) <==>
      fs != [] && exists k :: 0 <= k < |ids| && Total(fs, ids[k]) > voqL
  {
    if exists p :: p in load && load[p] > voqL {
      var p :| p in load && load[p] > voqL;
      var k :| 0 <= k < |ids| && ids[k] == p;
    }
    if fs != [] && exists k :: 0 <= k < |ids| && Total(fs, ids[k]) > voqL {
      var k :| 0 <= k < |ids| && Total(fs, ids[k]) > voqL;
      assert ids[k] in load;
    }
  }

  /** `completeCheck` fails exactly when some child has been counted and
      some input port's total, each next output port counted once,
      exceeds `voqL`. */
  lemma CompleteCheckMeaning(ports: seq<SwitchPort>, voqL: int)
    requires Distinct(Ids(ports))
    ensures (exists p :: p in InPortLoad(ports) && InPortLoad(ports)[p] > voqL) <==>
      Firsts(Flatten(ports), {}) != [] &&
      exists k :: 0 <= k < |ports| && Total(Firsts(Flatten(ports), {}), ports[k].id) > voqL
  {
    var load := InPortLoad(ports);
    var ids := Ids(ports);
    var fs := Firsts(Flatten(ports), {});
    forall p
      ensures p in load <==> p in ids && fs != []
      ensures p in load ==> load[p] == Total(fs, p)
    {
      InPortLoadAt(ports, p);
    }
    ExceedsIff(load, ids, fs, voqL);
  }
}
