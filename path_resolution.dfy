/** The second half of `convertformat` (convertformat.py:105-140): the index
    from an ordered device pair to its candidate ingress ports, and the
    rewriting of every virtual link's device paths into ingress-port paths,
    with one port drawn per device pair of the virtual link. */
module PathResolution {
  import opened Wrappers
  import opened Topology

  /** An ordered device pair (d1, d2): a step of a path from d1 to d2. */
  datatype Hop = Hop(src: int, dst: int)

  /** `connection_port`, a `defaultdict(list)`: an absent pair has no
      candidates. */
  type ConnectionIndex = map<Hop, seq<int>>

  function Lookup(index: ConnectionIndex, h: Hop): seq<int> {
    if h in index then index[h] else []
  }

  /** What one link appends to the candidates of h (convertformat.py:116-119):
      for i = 0 the pair (dev(to), dev(from)) gets `from`, then for i = 1
      the pair (dev(from), dev(to)) gets `to`. A link with an end that no
      device owns files its entries under a pair holding `None`, which no
      path of integers ever looks up. */
  function LinkCandidates(l: LinkRec, portDevice: map<int, int>, h: Hop): seq<int> {
    if l.from in portDevice && l.to in portDevice then
      (if h == Hop(portDevice[l.to], portDevice[l.from]) then [l.from] else []) +
      (if h == Hop(portDevice[l.from], portDevice[l.to]) then [l.to] else [])
    else []
  }

  /** The candidates of h after the loop over `links`, in append order. */
  function Candidates(links: seq<LinkRec>, portDevice: map<int, int>, h: Hop): seq<int>
    decreases |links|
  {
    if links == [] then []
    else Candidates(links[..|links| - 1], portDevice, h) + LinkCandidates(links[|links| - 1], portDevice, h)
  }

  /** Both ends of `l` belong to devices. */
  predicate Resolved(l: LinkRec, portDevice: map<int, int>) {
    l.from in portDevice && l.to in portDevice
  }

  /** Link l makes c a candidate of h: c is one end of l, and h goes from
      the device of the other end to the device of c. */
  predicate Gives(l: LinkRec, portDevice: map<int, int>, h: Hop, c: int) {
    && Resolved(l, portDevice)
    && ((c == l.to && h == Hop(portDevice[l.from], portDevice[l.to])) ||
        (c == l.from && h == Hop(portDevice[l.to], portDevice[l.from])))
  }

  /** Port c is a candidate of (d1, d2) exactly when some link with both
      ends owned joins a port of d1 to c: as `to` for the direction
      (dev(from), dev(to)), as `from` for the other. */
  lemma {:induction false} CandidatesMeaning(links: seq<LinkRec>, portDevice: map<int, int>, h: Hop, c: int)
    ensures c in Candidates(links, portDevice, h) <==> exists i :: 0 <= i < |links| && Gives(links[i], portDevice, h, c)
    decreases |links|
  {
    if links != [] {
      var n := |links| - 1;
      CandidatesMeaning(links[..n], portDevice, h, c);
      assert c in LinkCandidates(links[n], portDevice, h) <==> Gives(links[n], portDevice, h, c);
      if c in Candidates(links[..n], portDevice, h) {
        var i :| 0 <= i < n && Gives(links[..n][i], portDevice, h, c);
        assert links[..n][i] == links[i];
      }
      if exists i :: 0 <= i < |links| && Gives(links[i], portDevice, h, c) {
        var i :| 0 <= i < |links| && Gives(links[i], portDevice, h, c);
        if i < n {
          assert links[..n][i] == links[i];
        }
      }
    }
  }

  /** Every candidate of (d1, d2) is a port that d2 owns: the ingress port
      of d2 towards d1. */
  lemma CandidateOwnedByDestination(links: seq<LinkRec>, portDevice: map<int, int>, h: Hop, c: int)
    requires c in Candidates(links, portDevice, h)
    ensures c in portDevice && portDevice[c] == h.dst
  {
    CandidatesMeaning(links, portDevice, h, c);
  }

  /** For every link (from, to) with both ends owned, `to` is a candidate
      of (dev(from), dev(to)) and `from` one of (dev(to), dev(from)). */
  lemma LinkUsableBothWays(links: seq<LinkRec>, portDevice: map<int, int>, i: int)
    requires 0 <= i < |links| && Resolved(links[i], portDevice)
    ensures links[i].to in Candidates(links, portDevice, Hop(portDevice[links[i].from], portDevice[links[i].to]))
    ensures links[i].from in Candidates(links, portDevice, Hop(portDevice[links[i].to], portDevice[links[i].from]))
  {
    var l := links[i];
    assert Gives(l, portDevice, Hop(portDevice[l.from], portDevice[l.to]), l.to);
    assert Gives(l, portDevice, Hop(portDevice[l.to], portDevice[l.from]), l.from);
    CandidatesMeaning(links, portDevice, Hop(portDevice[l.from], portDevice[l.to]), l.to);
    CandidatesMeaning(links, portDevice, Hop(portDevice[l.to], portDevice[l.from]), l.from);
  }

  lemma CandidatesStep(links: seq<LinkRec>, portDevice: map<int, int>, k: int, h: Hop)
    requires 0 <= k < |links|
    ensures Candidates(links[..k + 1], portDevice, h)
      == Candidates(links[..k], portDevice, h) + LinkCandidates(links[k], portDevice, h)
  {
    assert links[..k + 1][..k] == links[..k];
  }

  /** `connection_port[key].append(port)`. */
  function Append(index: ConnectionIndex, key: Hop, port: int): (r: ConnectionIndex)
    ensures Lookup(r, key) == Lookup(index, key) + [port]
    ensures forall h :: h != key ==> Lookup(r, h) == Lookup(index, h)
  {
    index[key := Lookup(index, key) + [port]]
  }

  /** The two appends for one link. */
  function AddLink(index: ConnectionIndex, l: LinkRec, portDevice: map<int, int>): ConnectionIndex {
    if Resolved(l, portDevice) then
      Append(Append(index, Hop(portDevice[l.to], portDevice[l.from]), l.from), Hop(portDevice[l.from], portDevice[l.to]), l.to)
    else index
  }

  lemma AddLinkLookup(index: ConnectionIndex, l: LinkRec, portDevice: map<int, int>, h: Hop)
    ensures Lookup(AddLink(index, l, portDevice), h) == Lookup(index, h) + LinkCandidates(l, portDevice, h)
  {
  }

  /** The inner loop of convertformat.py:116-119 for one link. */
  method AddLinkEntries(index: ConnectionIndex, l: LinkRec, portDevice: map<int, int>) returns (r: ConnectionIndex)
    ensures r == AddLink(index, l, portDevice)
  {
    r := index;
    if l.from in portDevice && l.to in portDevice {
      var d1, d2 := portDevice[l.from], portDevice[l.to];
      r := Append(r, Hop(d2, d1), l.from);
      r := Append(r, Hop(d1, d2), l.to);
    }
  }

  /** `connection_port` after the loop over `links`. */
  function IndexOf(links: seq<LinkRec>, portDevice: map<int, int>): ConnectionIndex
    decreases |links|
  {
    if links == [] then map[]
    else AddLink(IndexOf(links[..|links| - 1], portDevice), links[|links| - 1], portDevice)
  }

  /** The index holds, for each pair, exactly its candidates in order. */
  lemma {:induction false} IndexOfLookup(links: seq<LinkRec>, portDevice: map<int, int>, h: Hop)
    ensures Lookup(IndexOf(links, portDevice), h) == Candidates(links, portDevice, h)
    decreases |links|
  {
    if links != [] {
      var n := |links| - 1;
      IndexOfLookup(links[..n], portDevice, h);
      AddLinkLookup(IndexOf(links[..n], portDevice), links[n], portDevice, h);
    }
  }

  /** The loop of convertformat.py:115-119. */
  method BuildIndex(links: seq<LinkRec>, portDevice: map<int, int>) returns (index: ConnectionIndex)
    ensures index == IndexOf(links, portDevice)
  {
    index := map[];
    var k := 0;
    while k < |links|
      invariant 0 <= k <= |links|
      invariant index == IndexOf(links[..k], portDevice)
    {
      index := AddLinkEntries(index, links[k], portDevice);
      assert links[..k + 1][..k] == links[..k];
      k := k + 1;
    }
    assert links[..k] == links;
  }

  /** `zip(path[:-1], path[1:])`. */
  function Pairs(path: seq<int>): (r: seq<Hop>)
    ensures |r| == if path == [] then 0 else |path| - 1
    ensures forall k :: 0 <= k < |r| ==> r[k] == Hop(path[k], path[k + 1])
  {
    if |path| <= 1 then [] else seq(|path| - 1, k requires 0 <= k < |path| - 1 => Hop(path[k], path[k + 1]))
  }

  /** The draws made so far for one virtual link: `conn_chosen`, and the
      number of `random.choice` calls made since the seed was set. */
  datatype Draws = Draws(chosen: map<Hop, int>, next: nat)

  /** `random.choice(cands)` as the `next`-th call: `rng` stands for the
      generator, giving the index each call picks before reduction to the
      list's length. */
  function Choose(cands: seq<int>, rng: nat -> nat, next: nat): (c: int)
    requires cands != []
    ensures c in cands
  {
    cands[rng(next) % |cands|]
  }

  /** The draws for the pairs of one path (convertformat.py:131-132): every
      occurrence draws again and overwrites; an empty candidate list makes
      `random.choice` fail. */
  function DrawPairs(index: ConnectionIndex, pairs: seq<Hop>, st: Draws, rng: nat -> nat): Result<Draws, ConvertError>
    decreases |pairs|
  {
    if pairs == [] then Success(st)
    else
      var cands := Lookup(index, pairs[0]);
      if cands == [] then Failure(NoConnection(pairs[0].src, pairs[0].dst))
      else DrawPairs(index, pairs[1..], Draws(st.chosen[pairs[0] := Choose(cands, rng, st.next)], st.next + 1), rng)
  }

  /** The draw loop over all paths of a virtual link
      (convertformat.py:129-132); a `path` attribute that `int()` cannot
      read aborts it. */
  function DrawPaths(index: ConnectionIndex, paths: seq<PathRec>, st: Draws, rng: nat -> nat): Result<Draws, ConvertError>
    decreases |paths|
  {
    if paths == [] then Success(st)
    else if paths[0].hops == [] then Failure(MalformedNumber)
    else match DrawPairs(index, Pairs(paths[0].hops), st, rng)
      case Failure(e) => Failure(e)
      case Success(st') => DrawPaths(index, paths[1..], st', rng)
  }

  /** Every drawn port is a candidate of its pair. */
  ghost predicate ChosenValid(index: ConnectionIndex, chosen: map<Hop, int>) {
    forall h :: h in chosen ==> chosen[h] in Lookup(index, h)
  }

  lemma {:induction false} DrawPairsFacts(index: ConnectionIndex, pairs: seq<Hop>, st: Draws, rng: nat -> nat)
    requires DrawPairs(index, pairs, st, rng).Success?
    ensures forall h :: h in st.chosen ==> h in DrawPairs(index, pairs, st, rng).value.chosen
    ensures forall h :: h in pairs ==> h in DrawPairs(index, pairs, st, rng).value.chosen
    ensures ChosenValid(index, st.chosen) ==> ChosenValid(index, DrawPairs(index, pairs, st, rng).value.chosen)
    ensures DrawPairs(index, pairs, st, rng).value.next == st.next + |pairs|
    decreases |pairs|
  {
    if pairs != [] {
      var cands := Lookup(index, pairs[0]);
      var st1 := Draws(st.chosen[pairs[0] := Choose(cands, rng, st.next)], st.next + 1);
      DrawPairsFacts(index, pairs[1..], st1, rng);
      forall h | h in pairs
        ensures h in DrawPairs(index, pairs, st, rng).value.chosen
      {
        if h != pairs[0] {
          assert h in pairs[1..];
        }
      }
    }
  }

  lemma {:induction false} DrawPathsFacts(index: ConnectionIndex, paths: seq<PathRec>, st: Draws, rng: nat -> nat)
    requires DrawPaths(index, paths, st, rng).Success?
    ensures forall h :: h in st.chosen ==> h in DrawPaths(index, paths, st, rng).value.chosen
    ensures Covered(paths, DrawPaths(index, paths, st, rng).value.chosen)
    ensures ChosenValid(index, st.chosen) ==> ChosenValid(index, DrawPaths(index, paths, st, rng).value.chosen)
    decreases |paths|
  {
    if paths != [] {
      var st1 := DrawPairs(index, Pairs(paths[0].hops), st, rng).value;
      DrawPairsFacts(index, Pairs(paths[0].hops), st, rng);
      DrawPathsFacts(index, paths[1..], st1, rng);
      forall i, h | 0 <= i < |paths| && h in Pairs(paths[i].hops)
        ensures h in DrawPaths(index, paths, st, rng).value.chosen
      {
        if i > 0 {
          assert paths[i] == paths[1..][i - 1];
        }
      }
    }
  }

  /** The draws fail exactly when some pair has no candidate, and then
      they name such a pair. */
  lemma {:induction false} DrawPairsOutcome(index: ConnectionIndex, pairs: seq<Hop>, st: Draws, rng: nat -> nat)
    ensures DrawPairs(index, pairs, st, rng).Success? <==> forall h :: h in pairs ==> Lookup(index, h) != []
    ensures DrawPairs(index, pairs, st, rng).Failure? ==>
      exists h :: h in pairs && Lookup(index, h) == [] && DrawPairs(index, pairs, st, rng).error == NoConnection(h.src, h.dst)
    decreases |pairs|
  {
    if pairs != [] && Lookup(index, pairs[0]) != [] {
      var st1 := Draws(st.chosen[pairs[0] := Choose(Lookup(index, pairs[0]), rng, st.next)], st.next + 1);
      DrawPairsOutcome(index, pairs[1..], st1, rng);
      if forall h :: h in pairs[1..] ==> Lookup(index, h) != [] {
        forall h | h in pairs ensures Lookup(index, h) != [] {
          if h != pairs[0] {
            assert h in pairs[1..];
          }
        }
      }
    }
  }

  /** Every path has a device and every pair a candidate. */
  ghost predicate Connected(index: ConnectionIndex, paths: seq<PathRec>) {
    forall i :: 0 <= i < |paths| ==>
      paths[i].hops != [] && forall h :: h in Pairs(paths[i].hops) ==> Lookup(index, h) != []
  }

  lemma {:induction false} DrawPathsOutcome(index: ConnectionIndex, paths: seq<PathRec>, st: Draws, rng: nat -> nat)
    ensures DrawPaths(index, paths, st, rng).Success? <==> Connected(index, paths)
    ensures DrawPaths(index, paths, st, rng).Failure? ==>
      (DrawPaths(index, paths, st, rng).error == MalformedNumber && exists i :: 0 <= i < |paths| && paths[i].hops == []) ||
      exists i, h :: 0 <= i < |paths| && h in Pairs(paths[i].hops) && Lookup(index, h) == [] &&
        DrawPaths(index, paths, st, rng).error == NoConnection(h.src, h.dst)
    decreases |paths|
  {
    if paths != [] && paths[0].hops != [] {
      DrawPairsOutcome(index, Pairs(paths[0].hops), st, rng);
      var r0 := DrawPairs(index, Pairs(paths[0].hops), st, rng);
      if r0.Success? {
        DrawPathsOutcome(index, paths[1..], r0.value, rng);
        if Connected(index, paths[1..]) {
          forall i | 0 <= i < |paths|
            ensures paths[i].hops != [] && forall h :: h in Pairs(paths[i].hops) ==> Lookup(index, h) != []
          {
            if i > 0 {
              assert paths[i] == paths[1..][i - 1];
            }
          }
        } else {
          var i :| 0 <= i < |paths[1..]| &&
            !(paths[1..][i].hops != [] && forall h :: h in Pairs(paths[1..][i].hops) ==> Lookup(index, h) != []);
          assert paths[i + 1] == paths[1..][i];
        }
        var r := DrawPaths(index, paths, st, rng);
        if r.Failure? {
          if r.error == MalformedNumber && exists i :: 0 <= i < |paths[1..]| && paths[1..][i].hops == [] {
            var i :| 0 <= i < |paths[1..]| && paths[1..][i].hops == [];
            assert paths[i + 1] == paths[1..][i];
          } else {
            var i, h :| 0 <= i < |paths[1..]| && h in Pairs(paths[1..][i].hops) && Lookup(index, h) == [] &&
              r.error == NoConnection(h.src, h.dst);
            assert paths[i + 1] == paths[1..][i];
          }
        }
      }
    }
  }

  /** The rewritten path (convertformat.py:134-139): one port per pair, the
      one drawn for it. */
  function RewritePath(p: PathRec, chosen: map<Hop, int>): PathRec
    requires forall h :: h in Pairs(p.hops) ==> h in chosen
  {
    PathRec(p.dest, seq(|Pairs(p.hops)|, k requires 0 <= k < |Pairs(p.hops)| => chosen[Pairs(p.hops)[k]]))
  }

  /** Every pair of every path has a drawn port. */
  ghost predicate Covered(paths: seq<PathRec>, chosen: map<Hop, int>) {
    forall i, h :: 0 <= i < |paths| && h in Pairs(paths[i].hops) ==> h in chosen
  }

  function RewriteAll(paths: seq<PathRec>, chosen: map<Hop, int>): (r: seq<PathRec>)
    requires Covered(paths, chosen)
    ensures |r| == |paths|
  {
    seq(|paths|, i requires 0 <= i < |paths| => RewritePath(paths[i], chosen))
  }

  lemma RewriteAllStep(paths: seq<PathRec>, i: int, chosen: map<Hop, int>)
    requires 0 <= i < |paths| && Covered(paths, chosen)
    ensures Covered(paths[..i], chosen) && Covered(paths[..i + 1], chosen)
    ensures RewriteAll(paths[..i + 1], chosen) == RewriteAll(paths[..i], chosen) + [RewritePath(paths[i], chosen)]
  {
    assert forall k :: 0 <= k <= i ==> paths[..i + 1][k] == paths[k];
  }

  /** One virtual link converted: the draws over all its paths, then the
      rewrite of all its paths, with the draw counter after it. */
  function ResolveSpec(index: ConnectionIndex, vl: VirtualLinkRec, next: nat, rng: nat -> nat)
    : Result<(VirtualLinkRec, nat), ConvertError>
  {
    match DrawPaths(index, vl.paths, Draws(map[], next), rng)
    case Failure(e) => Failure(e)
    case Success(st) =>
      DrawPathsFacts(index, vl.paths, Draws(map[], next), rng);
      Success((vl.(paths := RewriteAll(vl.paths, st.chosen)), st.next))
  }

  lemma DrawPairsStep(index: ConnectionIndex, pairs: seq<Hop>, j: int, st: Draws, rng: nat -> nat)
    requires 0 <= j < |pairs| && Lookup(index, pairs[j]) != []
    ensures DrawPairs(index, pairs[j..], st, rng)
      == DrawPairs(index, pairs[j + 1..], Draws(st.chosen[pairs[j] := Choose(Lookup(index, pairs[j]), rng, st.next)], st.next + 1), rng)
  {
    assert pairs[j..][0] == pairs[j] && pairs[j..][1..] == pairs[j + 1..];
  }

  lemma DrawPathsStep(index: ConnectionIndex, paths: seq<PathRec>, i: int, st: Draws, rng: nat -> nat)
    requires 0 <= i < |paths| && paths[i].hops != []
    ensures DrawPaths(index, paths[i..], st, rng) ==
      match DrawPairs(index, Pairs(paths[i].hops), st, rng)
      case Failure(e) => Failure(e)
      case Success(st') => DrawPaths(index, paths[i + 1..], st', rng)
  {
    assert paths[i..][0] == paths[i] && paths[i..][1..] == paths[i + 1..];
  }

  /** The draw loop for one path. */
  method DrawPath(index: ConnectionIndex, path: seq<int>, st: Draws, rng: nat -> nat) returns (r: Result<Draws, ConvertError>)
    requires path != []
    ensures r == DrawPairs(index, Pairs(path), st, rng)
  {
    var chosen, next := st.chosen, st.next;
    var j := 0;
    while j < |path| - 1
      invariant 0 <= j <= |path| - 1
      invariant DrawPairs(index, Pairs(path), st, rng) == DrawPairs(index, Pairs(path)[j..], Draws(chosen, next), rng)
    {
      var h := Hop(path[j], path[j + 1]);
      var cands := Lookup(index, h);
      if cands == [] {
        assert Pairs(path)[j..][0] == h;
        return Failure(NoConnection(h.src, h.dst));
      }
      DrawPairsStep(index, Pairs(path), j, Draws(chosen, next), rng);
      chosen := chosen[h := cands[rng(next) % |cands|]];
      next := next + 1;
      j := j + 1;
    }
    r := Success(Draws(chosen, next));
  }

  /** The rewrite loop for one path (convertformat.py:135-139). */
  method RewriteHops(path: PathRec, chosen: map<Hop, int>) returns (r: PathRec)
    requires forall h :: h in Pairs(path.hops) ==> h in chosen
    ensures r == RewritePath(path, chosen)
  {
    var p := path.hops;
    var newPath: seq<int> := [];
    var j := 0;
    while j < |p| - 1
      invariant 0 <= j <= |Pairs(p)|
      invariant newPath == seq(j, k requires 0 <= k < j => chosen[Pairs(p)[k]])
    {
      assert Pairs(p)[j] in Pairs(p);
      newPath := newPath + [chosen[Hop(p[j], p[j + 1])]];
      j := j + 1;
    }
    r := PathRec(path.dest, newPath);
  }

  /** The body of the loop of convertformat.py:124-140 for one virtual
      link: the draw loop over its paths, then the rewrite loop. */
  method ResolveVirtualLink(index: ConnectionIndex, vl: VirtualLinkRec, next: nat, rng: nat -> nat)
    returns (r: Result<(VirtualLinkRec, nat), ConvertError>)
    ensures r == ResolveSpec(index, vl, next, rng)
  {
    var st := Draws(map[], next);
    var i := 0;
    while i < |vl.paths|
      invariant 0 <= i <= |vl.paths|
      invariant DrawPaths(index, vl.paths, Draws(map[], next), rng) == DrawPaths(index, vl.paths[i..], st, rng)
    {
      if vl.paths[i].hops == [] {
        assert vl.paths[i..][0] == vl.paths[i];
        return Failure(MalformedNumber);
      }
      DrawPathsStep(index, vl.paths, i, st, rng);
      var step := DrawPath(index, vl.paths[i].hops, st, rng);
      if step.Failure? {
        return Failure(step.error);
      }
      st := step.value;
      i := i + 1;
    }
    DrawPathsFacts(index, vl.paths, Draws(map[], next), rng);
    assert vl.paths[i..] == [];
    var paths: seq<PathRec> := [];
    i := 0;
    while i < |vl.paths|
      invariant 0 <= i <= |vl.paths|
      invariant Covered(vl.paths[..i], st.chosen)
      invariant paths == RewriteAll(vl.paths[..i], st.chosen)
    {
      RewriteAllStep(vl.paths, i, st.chosen);
      assert Pairs(vl.paths[i].hops) == Pairs(vl.paths[i].hops);
      var p := RewriteHops(vl.paths[i], st.chosen);
      paths := paths + [p];
      i := i + 1;
    }
    assert vl.paths[..i] == vl.paths;
    r := Success((vl.(paths := paths), st.next));
  }

  // ---------------------------------------------------------------------
  // Properties of one resolved virtual link

  /** `out` is `vl` rewritten: the same paths in the same order, each with
      its `dest`, a path of n devices becoming n-1 ports, the k-th one a
      candidate ingress port of the device pair (path[k], path[k+1]); and
      all occurrences of one device pair, in any path of the virtual link,
      become the same port. */
  ghost predicate Rewritten(index: ConnectionIndex, vl: VirtualLinkRec, out: VirtualLinkRec) {
    && out.number == vl.number
    && |out.paths| == |vl.paths|
    && (forall i :: 0 <= i < |vl.paths| ==>
          out.paths[i].dest == vl.paths[i].dest && |out.paths[i].hops| == |vl.paths[i].hops| - 1)
    && (forall i, k :: 0 <= i < |vl.paths| && 0 <= k < |out.paths[i].hops| ==>
          out.paths[i].hops[k] in Lookup(index, Hop(vl.paths[i].hops[k], vl.paths[i].hops[k + 1])))
    && (forall i, j, a, b ::
          0 <= i < |vl.paths| && 0 <= j < |vl.paths| &&
          0 <= a < |out.paths[i].hops| && 0 <= b < |out.paths[j].hops| &&
          Pairs(vl.paths[i].hops)[a] == Pairs(vl.paths[j].hops)[b] ==>
            out.paths[i].hops[a] == out.paths[j].hops[b])
  }

  /** A resolved virtual link is its input rewritten: the single-ingress
      rule of convertformat.py:128-137. */
  lemma ResolvedShape(index: ConnectionIndex, vl: VirtualLinkRec, next: nat, rng: nat -> nat)
    requires ResolveSpec(index, vl, next, rng).Success?
    ensures Rewritten(index, vl, ResolveSpec(index, vl, next, rng).value.0)
  {
    DrawPathsFacts(index, vl.paths, Draws(map[], next), rng);
    DrawPathsOutcome(index, vl.paths, Draws(map[], next), rng);
    var st := DrawPaths(index, vl.paths, Draws(map[], next), rng).value;
    var out := ResolveSpec(index, vl, next, rng).value.0;
    forall i, k | 0 <= i < |vl.paths| && 0 <= k < |out.paths[i].hops|
      ensures out.paths[i].hops[k] in Lookup(index, Hop(vl.paths[i].hops[k], vl.paths[i].hops[k + 1]))
    {
      assert Pairs(vl.paths[i].hops)[k] in Pairs(vl.paths[i].hops);
    }
  }

  /** Whether the resolution succeeds does not depend on the draws: it
      fails exactly when some path cannot be read or some consecutive
      device pair has no candidate port (`random.choice` of an empty list),
      and then the error says which. */
  lemma ResolveOutcome(index: ConnectionIndex, vl: VirtualLinkRec, next: nat, rng: nat -> nat)
    ensures ResolveSpec(index, vl, next, rng).Success? <==> Connected(index, vl.paths)
    ensures ResolveSpec(index, vl, next, rng).Failure? ==>
      (ResolveSpec(index, vl, next, rng).error == MalformedNumber &&
       exists i :: 0 <= i < |vl.paths| && vl.paths[i].hops == []) ||
      exists i, h :: 0 <= i < |vl.paths| && h in Pairs(vl.paths[i].hops) && Lookup(index, h) == [] &&
        ResolveSpec(index, vl, next, rng).error == NoConnection(h.src, h.dst)
  {
    var d := DrawPaths(index, vl.paths, Draws(map[], next), rng);
    DrawPathsOutcome(index, vl.paths, Draws(map[], next), rng);
    assert ResolveSpec(index, vl, next, rng).Success? == d.Success?;
    if d.Failure? {
      assert ResolveSpec(index, vl, next, rng).error == d.error;
    }
  }

  /** With exactly one candidate for each pair, that candidate is taken:
      the draws have nothing to choose. */
  lemma UniqueCandidateTaken(index: ConnectionIndex, vl: VirtualLinkRec, next: nat, rng: nat -> nat)
    requires ResolveSpec(index, vl, next, rng).Success?
    requires forall i, h :: 0 <= i < |vl.paths| && h in Pairs(vl.paths[i].hops) ==> |Lookup(index, h)| == 1
    ensures forall i, k :: 0 <= i < |vl.paths| && 0 <= k < |ResolveSpec(index, vl, next, rng).value.0.paths[i].hops| ==>
      ResolveSpec(index, vl, next, rng).value.0.paths[i].hops[k] == Lookup(index, Pairs(vl.paths[i].hops)[k])[0]
  {
    ResolvedShape(index, vl, next, rng);
    RewrittenUnique(index, vl, ResolveSpec(index, vl, next, rng).value.0);
  }

  lemma RewrittenUnique(index: ConnectionIndex, vl: VirtualLinkRec, out: VirtualLinkRec)
    requires Rewritten(index, vl, out)
    requires forall i, h :: 0 <= i < |vl.paths| && h in Pairs(vl.paths[i].hops) ==> |Lookup(index, h)| == 1
    ensures forall i, k :: 0 <= i < |vl.paths| && 0 <= k < |out.paths[i].hops| ==>
      out.paths[i].hops[k] == Lookup(index, Pairs(vl.paths[i].hops)[k])[0]
  {
    forall i, k | 0 <= i < |vl.paths| && 0 <= k < |out.paths[i].hops|
      ensures out.paths[i].hops[k] == Lookup(index, Pairs(vl.paths[i].hops)[k])[0]
    {
      var h := Pairs(vl.paths[i].hops)[k];
      assert h in Pairs(vl.paths[i].hops);
      var cands := Lookup(index, h);
      assert out.paths[i].hops[k] in cands;
      assert cands == [cands[0]];
    }
  }

  /** ... and so two different random sources give the same virtual link,
      and leave the draw counter at the same place. */
  lemma UniqueCandidateDeterministic(index: ConnectionIndex, vl: VirtualLinkRec, next: nat, rng1: nat -> nat, rng2: nat -> nat)
    requires ResolveSpec(index, vl, next, rng1).Success?
    requires forall i, h :: 0 <= i < |vl.paths| && h in Pairs(vl.paths[i].hops) ==> |Lookup(index, h)| == 1
    ensures ResolveSpec(index, vl, next, rng1) == ResolveSpec(index, vl, next, rng2)
  {
    ResolveOutcome(index, vl, next, rng1);
    ResolveOutcome(index, vl, next, rng2);
    UniqueCandidateTaken(index, vl, next, rng1);
    UniqueCandidateTaken(index, vl, next, rng2);
    ResolvedShape(index, vl, next, rng1);
    ResolvedShape(index, vl, next, rng2);
    DrawCount(index, vl.paths, Draws(map[], next), rng1, rng2);
    var out1 := ResolveSpec(index, vl, next, rng1).value.0;
    var out2 := ResolveSpec(index, vl, next, rng2).value.0;
    forall i | 0 <= i < |vl.paths| ensures out1.paths[i] == out2.paths[i] {
      assert out1.paths[i].hops == out2.paths[i].hops;
    }
    assert out1.paths == out2.paths;
    assert out1 == out2;
  }

  /** The number of draws does not depend on their outcome. */
  lemma {:induction false} DrawCount(index: ConnectionIndex, paths: seq<PathRec>, st: Draws, rng1: nat -> nat, rng2: nat -> nat)
    requires DrawPaths(index, paths, st, rng1).Success?
    ensures DrawPaths(index, paths, st, rng2).Success?
    ensures DrawPaths(index, paths, st, rng1).value.next == DrawPaths(index, paths, st, rng2).value.next
    decreases |paths|
  {
    DrawPathsOutcome(index, paths, st, rng1);
    DrawPathsOutcome(index, paths, st, rng2);
    if paths != [] {
      var r1 := DrawPairs(index, Pairs(paths[0].hops), st, rng1);
      var r2 := DrawPairs(index, Pairs(paths[0].hops), st, rng2);
      DrawPairsOutcome(index, Pairs(paths[0].hops), st, rng2);
      DrawPairsFacts(index, Pairs(paths[0].hops), st, rng1);
      DrawPairsFacts(index, Pairs(paths[0].hops), st, rng2);
      DrawCountStart(index, paths[1..], r1.value, r2.value, rng1, rng2);
    }
  }

  /** Draw counts from two states with the same counter agree. */
  lemma {:induction false} DrawCountStart(index: ConnectionIndex, paths: seq<PathRec>, st1: Draws, st2: Draws, rng1: nat -> nat, rng2: nat -> nat)
    requires st1.next == st2.next
    requires DrawPaths(index, paths, st1, rng1).Success?
    ensures DrawPaths(index, paths, st2, rng2).Success?
    ensures DrawPaths(index, paths, st1, rng1).value.next == DrawPaths(index, paths, st2, rng2).value.next
    decreases |paths|
  {
    DrawPathsOutcome(index, paths, st1, rng1);
    DrawPathsOutcome(index, paths, st2, rng2);
    if paths != [] {
      var r1 := DrawPairs(index, Pairs(paths[0].hops), st1, rng1);
      var r2 := DrawPairs(index, Pairs(paths[0].hops), st2, rng2);
      DrawPairsOutcome(index, Pairs(paths[0].hops), st2, rng2);
      DrawPairsFacts(index, Pairs(paths[0].hops), st1, rng1);
      DrawPairsFacts(index, Pairs(paths[0].hops), st2, rng2);
      DrawCountStart(index, paths[1..], r1.value, r2.value, rng1, rng2);
    }
  }
}
