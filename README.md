# delaytool core, modelled in Dafny

This project models the core of `delaytool`, a tool that computes worst-case
delays of virtual links (VLs) in an AFDX-like switched network.

**The converter.** `convertformat.py` rewrites an AFDX Designer document into
the tool's own format:
- it finds the largest port id;
- it takes the common capacity of the plain links as the base rate;
- it expands every aggregated link (`multi = M > 1`) into `M` links, with fresh
  port ids on both switches;
- it indexes, for every ordered device pair, the ingress ports that connect it;
- it rewrites every VL path from a list of devices into a list of ingress
  ports. When several ports connect the same pair, it picks one at random. All
  occurrences of the pair within one VL then share that port.

**The C++ side.**
- `TokenizeCsv` and the table-building part of `fromXml` read the network.
- The `Vlink` and `Vnode` constructors build each VL's tree of vnodes.
- `VlinkConfig` provides the lookups, `getAll*` (in key order), `treeSize`,
  `calcChainMaxSize` and `Device::fromOutPort`.
- `PortDelays` stores `DelayData`, and `setInDelays`/`getFromMap` manage it.
- The Voq schemes contribute their overload guards, the entry `calcFirst`
  stores and `Voq::completeCheck`.
- The integer helpers come from `delay.h` and `delay.cpp`.
- `deletePaths` breaks a reported cycle by deleting VL paths, after the cycle
  error has been parsed.

**How the model is built.**
- Modules follow the source files:
  - `Csv`, `ConfigIo`, `DelayMath`, `Topology`, `LinkExpansion`,
    `PathResolution`, `ConvertFormat`, `OrderedMap`, `VlinkTree`, `Network`,
    `PortDelays`, `DeletePaths`;
  - `Wrappers` holds `Option` and `Result`.
- Code that works by loops is modelled as methods with loop invariants, each
  proved equal to a specification function. Examples: the converter's loops,
  `TokenizeCsv`, `treeSize`, the `Vlink` constructor, `fromOutPort`,
  `completeCheck` and `deletePaths`.
- Objects whose fields change are classes: `Document` and `VlinkConfig` in
  `fromXml`, `VoqDelays` for the per-port tables, and `VirtualLinks` for the
  VL list of `deletePaths`.
- The properties are lemmas about the specification functions.
- The Python exceptions and the C++ `assert`s on bad input become `Failure`
  results. Their errors are `ConvertError` and `BuildError`.
- `random.choice` reads from a parameter `rng: nat -> nat`. The k-th draw takes
  `cands[rng(k) % |cands|]`.
- The vnode trees of the C++ code are linked by `unique_ptr`. Here they are an
  arena: one sequence of nodes, with parents and children referred to by index.
- C++ `/` and `%` truncate toward zero. They are modelled as `DelayMath.Quot`
  and `DelayMath.Rem`.

Some behaviour of the code that the model keeps as written:
- **Draws.** The converter calls `random.choice` at every occurrence of a
  device pair in a VL's paths, not only at the first one
  (convertformat.py:131-132). A later draw overwrites an earlier one. Every
  path is rewritten from the final table, so all occurrences of a pair within
  one VL get the same port. The number of draws is the number of pair
  occurrences.
- **`multi` on plain links.** The expansion loop skips a link whose `multi`
  is 1 or less, so that link keeps its attribute (convertformat.py:80-81).
  Only aggregated links lose it (convertformat.py:83).
- **Unreadable attributes.** The converter stops when a device's `ports`
  attribute has an empty or non-numeric entry (`int()` raises at
  convertformat.py:52). It also stops when an end system's `ports` is not
  exactly one integer (convertformat.py:108).
- **Fractional capacities.** `fromXml` truncates the first link's capacity
  to an integer for the rate. It then compares every `stof(capacity)` with
  that rate (configio.cpp:34-48). A document whose capacities are all the
  same non-integral value is therefore rejected
  (`ConfigIo.FractionalCapacityRejected`).

## Model

| member | source | states |
|---|---|---|
| Csv.TokenizeCsv | delaytool/source/configio.cpp:12-23 | the loop returns exactly the numbers the stream extractions read, one optional ',' or ' ' skipped after each |
| Csv.ReadInt | delaytool/source/configio.cpp:16 | a successful `ss >> num` consumes at least one character and yields a value within 32-bit `int` range |
| Csv.TokensOfJoin | delaytool/source/configio.cpp:12-23 | reading back 32-bit integers written as a comma-separated list gives exactly those integers |
| Csv.TokensStopAtDoubleComma | delaytool/source/configio.cpp:16-21 | only one separator is skipped: after ",," the tokenizer stops, so nothing after it is read |
| Csv.DoubleCommaExample | delaytool/source/configio.cpp:18-19 | "1,,2" is read as [1] |
| ConfigIo.FromXml | delaytool/source/configio.cpp:43-105 | returns null exactly on a capacity mismatch or an end system without exactly one port; otherwise the rate, the link table, the port-owner table and the device table are those of the document, forced capacities are written back, and every VL gets `lmin = min(sminDefault, lmax)` |
| ConfigIo.ReadLinks | delaytool/source/configio.cpp:43-56 | succeeds exactly when no capacity differs from the rate (unforced case); the link table maps both ends of every link to each other, later links winning; forced rates overwrite every capacity |
| ConfigIo.ReadEndSystems | delaytool/source/configio.cpp:61-73 | fails exactly when some end system does not list one port; otherwise every end system's port is owned by it and each is a `Device::End` under its number |
| ConfigIo.ReadSwitches | delaytool/source/configio.cpp:75-85 | every port of every switch is owned by that switch, on top of the end systems' table, and each switch is a `Device::Switch` under its number |
| ConfigIo.AddDevice | delaytool/source/configio.cpp:71-72 | `devices[number]` gets a port-less device and `portNums[number]` its port list, the later element with a number replacing the earlier (also configio.cpp:83-84 for switches); the link and owner tables are unchanged |
| ConfigIo.AddPorts | delaytool/source/configio.cpp:86-89 | every device receives the port list recorded under its number, nothing else changes |
| ConfigIo.WriteLmin | delaytool/source/configio.cpp:104-105 | every VL's `lmin` becomes the smaller of `sminDefault` and its `lmax`, in place |
| ConfigIo.LinkTableAt | delaytool/source/configio.cpp:54-55 | the entry of a port is the other end of the last link touching it |
| ConfigIo.LinkTableBothWays | delaytool/source/configio.cpp:54-55 | when no port ends two links, both ends of every link map to each other |
| ConfigIo.LinkTableInvolution | delaytool/source/configio.cpp:54-55 | when no port ends two links, `connectedPort` of `connectedPort(p)` is p |
| ConfigIo.ForcedLinkTable | delaytool/source/configio.cpp:49-55 | forcing the rate changes capacities only, not the link table |
| ConfigIo.UniformCapacityAccepted | delaytool/source/configio.cpp:34-48 | links sharing one integral capacity pass the check, and the rate is that capacity |
| ConfigIo.FractionalCapacityRejected | delaytool/source/configio.cpp:34-48 | a non-integral first capacity always fails the check, since the rate is its truncation |
| ConfigIo.DeviceTableAt | delaytool/source/configio.cpp:69-84 | the device under a number is made from the last element carrying that number |
| ConfigIo.DeviceTableElse | delaytool/source/configio.cpp:69-84 | a number no element carries keeps its previous entry or absence |
| ConfigIo.WrittenEndSystemsAccepted | delaytool/source/configio.cpp:64-68 | end systems whose `ports` is one written integer pass the one-port check and own exactly that port |
| DelayMath.Quot | delaytool/source/delay.h:7-9 | C++ `/`: the Euclidean quotient for a non-negative dividend, the negated quotient of the magnitude for a negative one |
| DelayMath.Rem | delaytool/source/delay.h:12-14 | C++ `%`: x = quotient * y + r, r has the sign of x and is smaller than \|y\| |
| DelayMath.RemZeroIffDivides | delaytool/source/delay.h:13 | `x % y != 0` tests exactly that y does not divide x |
| DelayMath.FloorDiv | delaytool/source/delay.cpp:28-30 | `floordiv` of a non-negative by a positive number lies between 0 and the dividend |
| DelayMath.CeilDiv | delaytool/source/delay.cpp:33-35 | `ceildiv` of a non-negative by a positive number is non-negative, and 0 exactly for a zero dividend |
| DelayMath.CeilDivUp | delaytool/source/delay.cpp:38-40 | `ceildiv_up` of a non-negative by a positive number is at least 1 |
| DelayMath.NumPackets | delaytool/source/delay.cpp:57-59 | `numPackets` of a non-negative window is non-negative, and 0 exactly for an empty window |
| DelayMath.NumPacketsUp | delaytool/source/delay.cpp:62-64 | `numPacketsUp` of a non-negative window is at least one packet |
| DelayMath.RoundToMultiple | delaytool/source/delay.h:30-33 | `roundToMultiple` never rounds below x for a positive k |
| DelayMath.Ramp | delaytool/source/delay.cpp:42-45 | `ramp(n)` is non-negative and at least n |
| DelayMath.SizeRound | delaytool/source/delay.cpp:47-50 | as written, `sizeRound` of a non-negative size lies in (size - cellSize, size]: it never rounds up |
| DelayMath.SizeRoundIf | delaytool/source/delay.cpp:52-55 | the flagged overload of a non-negative size lies in (size - cellSize, size] |
| DelayMath.NumCells | delaytool/source/delay.cpp:66-70 | `numCells` is non-negative for non-negative interval, jitter and cell count |
| DelayMath.NumCellsUp | delaytool/source/delay.cpp:72-77 | `numCellsUp` equals `numCells` for every input: its body repeats it |
| DelayMath.FloorDivIsFloor | delaytool/source/delay.h:6-9 | for x >= 0, y > 0, `floordiv` is the floor: q*y <= x < (q+1)*y |
| DelayMath.CeilDivIsLeast | delaytool/source/delay.h:11-14 | for x >= 0, y > 0, `ceildiv` covers x and one less does not (the ceiling) |
| DelayMath.CeilDivBelowEveryCover | delaytool/source/delay.h:11-14 | every q with q*y >= x is at least `ceildiv(x, y)` |
| DelayMath.CeilDivUpVersusCeilDiv | delaytool/source/delay.h:16-19 | `ceildiv_up` is `ceildiv` plus one when y divides x, and equals it otherwise |
| DelayMath.NumPacketsMonotone | delaytool/source/delay.h:21-23 | more interval or more jitter never gives fewer packets |
| DelayMath.NumPacketsCoversWindow | delaytool/source/delay.h:21-23 | `numPackets` bags cover interval + jitter, and it is the least count that does |
| DelayMath.NumPacketsUpAtLeast | delaytool/source/delay.h:25-28 | the limit from above is `numPackets` or one more |
| DelayMath.RoundToMultipleIsNextMultiple | delaytool/source/delay.h:30-33 | for x >= 0, k > 0: the least multiple of k that is >= x |
| DelayMath.RampIsMaxZero | delaytool/source/delay.cpp:42-45 | `ramp(n)` is max(0, n) |
| DelayMath.SizeRoundRoundsDown | delaytool/source/delay.cpp:47-50 | as written, `sizeRound` rounds a size down to a multiple of the cell size |
| DelayMath.SizeRoundDropsPartialCell | delaytool/source/delay.cpp:47-50 | `sizeRound(1, 64)` is 0 and `sizeRound(65, 64)` is 64 |
| DelayMath.SizeRoundUpIsNextMultiple | delaytool/source/delay.cpp:47-50 | the corrected rounding gives the least multiple of the cell size that is >= the size |
| DelayMath.SizeRoundIfAgrees | delaytool/source/delay.cpp:52-55 | the flagged overload is the identity without rounding and `sizeRound` with it |
| DelayMath.NumCellsBounds | delaytool/source/delay.cpp:66-77 | `numCellsUp` equals `numCells` everywhere; at most nCells per whole bag plus nCells |
| DelayMath.NumCellsShortWindow | delaytool/source/delay.cpp:66-70 | in a window shorter than a bag the count is min(nCells, ceildiv(interval, cellSize)) |
| Topology.OwnerMapKeys | delaytool/experiments/convertformat.py:57-60 | a port has an owner exactly when some device lists it, and the owner is a device that lists it |
| Topology.OwnerMapOwner | delaytool/experiments/convertformat.py:57-60 | with distinct port ids, every listed port maps to the device that lists it |
| Topology.OwnerMapAppend | delaytool/experiments/convertformat.py:106-108 | indexing the switches and then the end systems is the union of the two tables, the later winning |
| Topology.IndexPorts | delaytool/experiments/convertformat.py:57-60 | the nested loop builds exactly the owner table of the devices over the starting table |
| Topology.MarkPorts | delaytool/experiments/convertformat.py:59-60 | every port of one device is given its number |
| LinkExpansion.MaxOf | delaytool/experiments/convertformat.py:52 | Python's `max` returns an element that no element exceeds |
| LinkExpansion.PortMax | delaytool/experiments/convertformat.py:50-54 | the result bounds every listed port id, is non-negative, and is itself listed unless 0 |
| LinkExpansion.MaxPortNumber | delaytool/experiments/convertformat.py:50-54 | the scan fails exactly when some device has no readable port; otherwise it returns `PortMax` |
| LinkExpansion.BaseRate | delaytool/experiments/convertformat.py:63-72 | succeeds with a rate every plain link carries; fails with InconsistentBaseRate exactly when two plain capacities differ and with NoBaseRate exactly when there is no plain link |
| LinkExpansion.BaseRateOfPlain | delaytool/experiments/convertformat.py:66-71 | the base rate is the capacity of every plain link |
| LinkExpansion.FirstSwitch | delaytool/experiments/convertformat.py:88 | `find("switch[@number=n]")`: the first switch with that number, or none exactly when no switch has it |
| LinkExpansion.ExpandStep | delaytool/experiments/convertformat.py:76-101 | one pass of the outer loop computes the specified expansion of one link |
| LinkExpansion.DuplicateLink | delaytool/experiments/convertformat.py:91-100 | the inner loop appends ports base+1, base+3, ... and base+2, base+4, ... to the two switches, adds links (base+2k+1, base+2k+2), indexes the new ports and advances the counter by 2(M-1) |
| LinkExpansion.ExpandLinks | delaytool/experiments/convertformat.py:75-101 | the whole loop equals the specified expansion, and the document's links become the normalized originals followed by the added links |
| LinkExpansion.DuplicatePorts | delaytool/experiments/convertformat.py:91-96 | after M-1 rounds, each switch of the link has gained M-1 new ports in allocation order (2(M-1) if both ends are on one switch), and every other switch is unchanged |
| LinkExpansion.ExpandOneShape | delaytool/experiments/convertformat.py:79-100 | an aggregated link between two switches succeeds, advances the counter by 2(M-1), adds M-1 fresh links and touches only its two switches |
| LinkExpansion.ExpandOneFailure | delaytool/experiments/convertformat.py:84-87 | one link's expansion fails exactly when it is aggregated and an end is owned by no switch, with MultiLinkNotBetweenSwitches |
| LinkExpansion.CopiesAreFresh | delaytool/experiments/convertformat.py:97-99 | a copy keeps only the base rate of the original link; its ends are the fresh pair |
| LinkExpansion.ExpandAllAllocation | delaytool/experiments/convertformat.py:91-99 | over the whole document the counter advances by two per added link, and the added links are (max+1, max+2), (max+3, max+4), ... in order |
| LinkExpansion.ExpandAllFresh | delaytool/experiments/convertformat.py:91-96 | if all port ids were distinct and at most the counter, they stay distinct and at most the final counter |
| LinkExpansion.UniformCapacity | delaytool/experiments/convertformat.py:82-83 | after expansion the document has \|links\| + sum(M-1) links, all at the base rate without `multi`; plain links are untouched |
| LinkExpansion.ExpandAllNumbers | delaytool/experiments/convertformat.py:95 | the expansion keeps the switches, their order and their numbers |
| LinkExpansion.ExpandAllError | delaytool/experiments/convertformat.py:86-87 | the only error of the expansion is MultiLinkNotBetweenSwitches |
| PathResolution.Append | delaytool/experiments/convertformat.py:119 | appending to a `defaultdict(list)` entry extends that entry and leaves every other key as it was |
| PathResolution.AddLinkEntries | delaytool/experiments/convertformat.py:116-119 | the loop over `i in 0, 1` makes both appends of one link |
| PathResolution.BuildIndex | delaytool/experiments/convertformat.py:115-119 | the loop builds the specified connection index |
| PathResolution.IndexOfLookup | delaytool/experiments/convertformat.py:114-119 | the index holds, for each ordered pair, exactly its candidate ports in link order |
| PathResolution.CandidatesMeaning | delaytool/experiments/convertformat.py:114-119 | port c is a candidate of (d1, d2) exactly when some link has c as the end owned by d2 and its other end owned by d1 |
| PathResolution.CandidateOwnedByDestination | delaytool/experiments/convertformat.py:116-119 | every candidate of (d1, d2) is a port of d2: an ingress port |
| PathResolution.LinkUsableBothWays | delaytool/experiments/convertformat.py:118-119 | every link with both ends owned is a candidate in both directions |
| PathResolution.Pairs | delaytool/experiments/convertformat.py:131 | `zip(path[:-1], path[1:])`: n-1 consecutive pairs, the k-th being (path[k], path[k+1]) |
| PathResolution.Choose | delaytool/experiments/convertformat.py:132 | `random.choice` returns an element of the candidate list |
| PathResolution.DrawPath | delaytool/experiments/convertformat.py:130-132 | the draw loop for one path is the specified draws over its pairs |
| PathResolution.DrawPairsFacts | delaytool/experiments/convertformat.py:131-132 | successful draws keep earlier choices' keys, cover every pair, choose only candidates and make one draw per pair |
| PathResolution.DrawPathsFacts | delaytool/experiments/convertformat.py:128-132 | after all paths every pair of every path has a chosen candidate port |
| PathResolution.DrawPairsOutcome | delaytool/experiments/convertformat.py:131-132 | drawing succeeds exactly when every pair has a candidate, and the error names the first pair without one |
| PathResolution.DrawPathsOutcome | delaytool/experiments/convertformat.py:129-132 | drawing over the paths succeeds exactly when every path is readable and every pair connected |
| PathResolution.RewriteHops | delaytool/experiments/convertformat.py:134-139 | the rewrite loop replaces a path by the chosen port of each of its pairs |
| PathResolution.ResolveVirtualLink | delaytool/experiments/convertformat.py:124-140 | the body of the VL loop computes the specified draws and rewrite of one VL |
| PathResolution.ResolvedShape | delaytool/experiments/convertformat.py:128-139 | a resolved VL keeps its paths, order and dests; a path of n devices becomes n-1 ports, each a candidate ingress port of its pair; every occurrence of a pair gets the same port |
| PathResolution.ResolveOutcome | delaytool/experiments/convertformat.py:128-132 | resolution succeeds exactly when every path is readable and every pair has a candidate, whatever the draws; the error says which |
| PathResolution.UniqueCandidateTaken | delaytool/experiments/convertformat.py:128-137 | when each pair has one candidate, that candidate is the port written |
| PathResolution.UniqueCandidateDeterministic | delaytool/experiments/convertformat.py:128-137 | when each pair has one candidate, two random sources give the same result |
| PathResolution.DrawCount | delaytool/experiments/convertformat.py:129-132 | the number of draws does not depend on their outcome |
| ConvertFormat.InitialOwners | delaytool/experiments/convertformat.py:57-60 | `port_switch` as first built maps ports to numbers of existing switches |
| ConvertFormat.AddEndSystems | delaytool/experiments/convertformat.py:106-108 | fails exactly when some end system's `ports` is not one integer; otherwise adds each end system's port to the table |
| ConvertFormat.ResolveVirtualLinks | delaytool/experiments/convertformat.py:123-140 | the VL loop resolves every VL in order, the draw counter running on from one VL to the next |
| ConvertFormat.Convert | delaytool/experiments/convertformat.py:40-142 | the whole conversion returns the specified document or the first error raised |
| ConvertFormat.ConvertRateErrors | delaytool/experiments/convertformat.py:49-72 | unreadable ports fail first; otherwise the conversion fails with InconsistentBaseRate exactly when plain capacities disagree and with NoBaseRate exactly when no link is plain |
| ConvertFormat.ConvertedLinks | delaytool/experiments/convertformat.py:75-101 | output links: the originals in order (plain ones untouched, aggregated ones at the base rate without `multi`) then the added ones; \|links\| + sum(M-1) links, all at the plain capacity, none aggregated |
| ConvertFormat.ConvertedLinkList | delaytool/experiments/convertformat.py:75-101 | the output link list is the normalized input list followed by the fresh links counted from the largest input port id |
| ConvertFormat.ConvertedFreshLinks | delaytool/experiments/convertformat.py:91-99 | the added links join max+1 and max+2, max+3 and max+4, ... in order |
| ConvertFormat.ConvertedDevices | delaytool/experiments/convertformat.py:84-108 | end systems are unchanged and switches keep their order and numbers; distinct input port ids stay distinct and at most max + 2·sum(M-1) |
| ConvertFormat.ConvertedPaths | delaytool/experiments/convertformat.py:124-139 | every VL is rewritten (single ingress per pair), and each port written is owned by the next device of the original path |
| ConvertFormat.ConvertIgnoresRngWhenUnique | delaytool/experiments/convertformat.py:128-132 | when every pair on the paths has one candidate, the output does not depend on the seed |
| OrderedMap.SortedKeys | delaytool/source/algo.h:72-79 | a map's keys in increasing order, each once |
| OrderedMap.SortedKeysHas | delaytool/source/algo.h:72-79 | every key of the map is enumerated |
| OrderedMap.SortKeys | delaytool/source/algo.h:75-77 | the iteration order of a `std::map` is its sorted key list |
| OrderedMap.Values | delaytool/source/algo.h:72-79 | `for (pair : m) res.push_back(pair.second)` lists the values in key order |
| OrderedMap.InKeyOrderAt | delaytool/source/algo.h:72-79 | every entry of the map is listed, at the rank of its key |
| VlinkTree.TreeSize | delaytool/source/algo.cpp:3-9 | a subtree counts at least its root |
| VlinkTree.ComputeTreeSize | delaytool/source/algo.cpp:3-9 | the recursive loop returns the size of the subtree: 1 plus the children's sizes |
| VlinkTree.GrowTree | delaytool/source/algo.cpp:86-89 | hanging a new leaf under any vnode keeps the tree well formed and makes it exactly one larger |
| VlinkTree.FirstIn | delaytool/source/algo.h:278-285 | the first child on the device, or none exactly when no child is on it |
| VlinkTree.SelectNext | delaytool/source/algo.h:278-285 | `selectNext` returns a child on the device, or nullptr exactly when no child is on it |
| VlinkTree.WalkDevice | delaytool/source/algo.cpp:79-83 | a successful walk ends on a vnode of the last device walked |
| VlinkTree.WalkExtends | delaytool/source/algo.cpp:74-92 | adding vnodes never changes where an existing walk ends |
| VlinkTree.WalkLabel | delaytool/source/algo.cpp:79-83 | a walk of `selectNext` steps from the root follows exactly the devices on the way down to the vnode it reaches, so two walks reaching one vnode followed the same devices |
| VlinkTree.WalkHops | delaytool/source/algo.cpp:79-83 | every hop of a walk that succeeds in the tree under construction has an input port from the device before it, since each vnode on the way came from `Vnode::Vnode` |
| VlinkTree.PresentIsPrefix | delaytool/source/algo.cpp:74-83 | when every vnode lies on an earlier path, a path whose walk reaches its end, which fails the `assert`, is a prefix of an earlier path |
| VlinkTree.AttachDistinct | delaytool/source/algo.cpp:86-89 | appending a child only where `selectNext` found none keeps the children of every vnode on distinct devices |
| VlinkTree.AttachFirstChild | delaytool/source/algo.cpp:82-88 | the appended vnode is the one `selectNext` then finds for its device |
| VlinkTree.NewVnode | delaytool/source/algo.cpp:95-109 | succeeds exactly when the device exists and has a port from the previous device; its `in` is the first such port; errors UnknownDevice or NoInPort otherwise |
| VlinkTree.NewRoot | delaytool/source/algo.cpp:95-113 | the root is made exactly when its device is a source; it has no input port and `outPrev == -1` |
| VlinkTree.WalkDown | delaytool/source/algo.cpp:76-83 | the `while` loop fails exactly when the whole path is already in the tree; otherwise it stops at the first device with no matching child |
| VlinkTree.AppendRest | delaytool/source/algo.cpp:86-90 | the `for` loop succeeds exactly when every remaining device exists and has a port from the device before it; it then appends a vnode per remaining device so that the path leads to a leaf on its last device, each new vnode lying on the path; otherwise the error is UnknownDevice or NoInPort for the first device that fails |
| VlinkTree.InsertPath | delaytool/source/algo.cpp:74-92 | succeeds exactly when the path starts at the source, is not already in the tree and every hop has an input port; a path from another source is WrongSource and one already in the tree PathPresent; on success the tree grows so that the path ends on its last device and `dst` records that leaf |
| VlinkTree.BuildVlink | delaytool/source/algo.cpp:66-109 | construction gets through every `assert` exactly when the first path has a hop from a known source, every path starts at that source with an input port at each hop, and no path is a prefix of an earlier one; no path or a short first path is NoPaths, an unknown source UnknownDevice; on success every path is in the tree and `dst` maps each last device to the leaf of the last path to it |
| VlinkTree.DstKeys | delaytool/source/algo.cpp:91 | the keys of `dst` are exactly the paths' last devices |
| VlinkTree.DstAt | delaytool/source/algo.cpp:91 | the entry of a device in `dst` is where the last path to it ends |
| Network.FindPort | delaytool/source/algo.h:141-145 | the first port with the id, or none exactly when no port has it |
| Network.GetPort | delaytool/source/algo.h:141-145 | `getPort` returns a port of the device with that id |
| Network.VlinkConfig.GetVlink | delaytool/source/algo.h:47-51 | the VL stored under the id, one of those `getAllVlinks` lists |
| Network.VlinkConfig.GetDevice | delaytool/source/algo.h:53-58 | looks in `sources` when `isSource` and in `devices` otherwise |
| Network.VlinkConfig.ConnectedPort | delaytool/source/algo.h:60-64 | the port linked to the given one, as stored in the link table |
| Network.VlinkConfig.PortDevice | delaytool/source/algo.h:66-70 | the device owning the port, as stored in the port table |
| Network.VlinkConfig.GetAllVlinks | delaytool/source/algo.h:72-79 | the VLs in increasing id order |
| Network.VlinkConfig.GetAllDevices | delaytool/source/algo.h:81-88 | the devices in increasing id order |
| Network.VlinkConfig.GetAllSources | delaytool/source/algo.h:90-97 | the sources in increasing id order |
| Network.VlinkConfig.CalcChainMaxSize | delaytool/source/algo.cpp:11-19 | `chainMaxSize` becomes the number of non-root vnodes over all VLs; no other field changes |
| Network.SumChains | delaytool/source/algo.cpp:13-17 | the loop adds `treeSize(src) - 1` of each VL, which is the number of its non-root vnodes |
| Network.BuiltTrees | delaytool/source/algo.cpp:66-93 | a VL the constructor built is a tree whose `treeSize` is its number of vnodes |
| Network.SelectOut | delaytool/source/algo.cpp:33-38 | the inner loop finds the first child leaving the given output port, up to its `break` |
| Network.FromPort | delaytool/source/algo.cpp:31-39 | one port's vnodes are visited in VL id order, each giving its first child from the output port |
| Network.FromOutPort | delaytool/source/algo.cpp:28-42 | `fromOutPort` collects port by port, VL by VL, the first child of each stored vnode leaving the output port |
| Network.FromOutHas | delaytool/source/algo.cpp:28-42 | a vnode is listed exactly when some port stores a vnode of its VL whose first child leaving that output port is it |
| PortDelays.NotReady | delaytool/source/algo.h:194 | `DelayData()` is not ready and every accessor answers -1 |
| PortDelays.MakeDelay | delaytool/source/algo.h:195 | `DelayData(dmin, jit)` is ready, with dmax = dmin + jit |
| PortDelays.ConsistentAccessors | delaytool/source/algo.h:197-203 | a ready entry has dmax = dmin + jit; a non-ready one answers -1 everywhere |
| PortDelays.GetFromMap | delaytool/source/algo.h:240-248 | the stored entry of the VL, or a not-ready entry when it has none |
| PortDelays.VoqDelays.SetInDelays | delaytool/source/algo.h:220-223 | the input table is replaced and the port marked ready; the output table is kept |
| PortDelays.VoqDelays.GetDelay | delaytool/source/algo.h:227 | the entry comes from a constructor, and is not ready for an unknown VL |
| PortDelays.VoqDelays.CalcFirst | delaytool/source/delay.cpp:138-144 | succeeds and stores a ready delay for exactly that VL |
| PortDelays.VoqDelays.CalcCommon | delaytool/source/delay.cpp:120-136 | returns BadForVoq and writes nothing when the previous output port's load exceeds `voqL`; otherwise stores the VL's delay |
| PortDelays.CalcFirstOnlyOne | delaytool/source/delay.cpp:142 | storing one VL's delay leaves every other VL's entry as it was |
| PortDelays.AddAll | delaytool/source/delay.cpp:93-97 | the loop over the switch's ports adds each port's load |
| PortDelays.VisitChildren | delaytool/source/delay.cpp:85-98 | the loop over one vnode's children visits each, skipping already visited output ports |
| PortDelays.VisitVnodes | delaytool/source/delay.cpp:84-99 | the loop over one port's vnodes visits their children in order |
| PortDelays.RunAt | delaytool/source/delay.cpp:85-98 | running over children adds to each input port the loads of the children whose output port is new |
| PortDelays.InPortLoadAt | delaytool/source/delay.cpp:81-100 | an input port has an entry exactly when some child was counted, and its load is the sum over the first child of each output port |
| PortDelays.CompleteCheck | delaytool/source/delay.cpp:79-108 | returns BadForVoq exactly when some accumulated input-port load exceeds `voqL`, and Success otherwise |
| PortDelays.CompleteCheckMeaning | delaytool/source/delay.cpp:79-108 | that happens exactly when some child was counted and some input port's total load over distinct output ports exceeds `voqL` |
| DeletePaths.FirstNumbered | delaytool/source/deletepaths.cpp:11-19 | the position of the first VL with that number, or none exactly when there is none |
| DeletePaths.FindVl | delaytool/source/deletepaths.cpp:11-19 | the search loop stops at the first VL with that number |
| DeletePaths.Matching | delaytool/source/deletepaths.cpp:20-28 | collects exactly the paths whose `dest` is in the set |
| DeletePaths.Remaining | delaytool/source/deletepaths.cpp:29-31 | deleting the collected paths leaves the others in order |
| DeletePaths.MatchingKeep | delaytool/source/deletepaths.cpp:20-31 | collecting and then deleting keeps exactly the paths whose dest is not in the set, in order |
| DeletePaths.VirtualLinks.DeletePaths | delaytool/source/deletepaths.cpp:7-35 | the VL list becomes the specified result: the first matching VL loses the paths to the dests, and is removed when none is left |
| DeletePaths.KeepHas | delaytool/source/deletepaths.cpp:25-31 | a path remains exactly when it was there and its dest is not in the set |
| DeletePaths.KeepAppend | delaytool/source/deletepaths.cpp:20-31 | the kept paths keep their relative order: filtering distributes over concatenation |
| DeletePaths.KeepTwice | delaytool/source/deletepaths.cpp:20-31 | deleting the same dests twice is deleting them once |
| DeletePaths.AfterDeleteShape | delaytool/source/deletepaths.cpp:29-34 | VLs before and after the edited one are unchanged; it keeps its number and the surviving paths, or is gone when none survive |
| DeletePaths.AfterDeleteNoDest | delaytool/source/deletepaths.cpp:25-31 | no path of the edited VL leads to a deleted dest afterwards |
| DeletePaths.AfterDeleteIdempotent | delaytool/source/deletepaths.cpp:7-35 | while the edited VL survives, deleting again changes nothing |
| DeletePaths.CycleArgs | delaytool/source/deletepaths.cpp:96-101 | the first token is the VL and the others form the set of dests; no token gives nothing |
| DeletePaths.ParseCycle | delaytool/source/deletepaths.cpp:96-100 | the tokenizer and the loop from `begin() + 1` produce the VL and the set of dests |
| DeletePaths.ParseCycleOfJoin | delaytool/source/deletepaths.cpp:96-101 | a VL and dests written as a comma-separated list are read back as that VL and the set of those dests |

## Left out

- I/O, including reading and writing the XML files, the `print` output and the command-line parsing of both tools. The XML elements are records, and the mutated parts of the document are fields of a class.
- Integer width. Integers are unbounded. The `int64_t` and `int` overflow of the C++ arithmetic is not modelled. `Csv.ReadInt` models the failure of a stream extraction that overflows `int`.
- Floating point. `double` and `float` values (`linkRate`, `DelayData`, `stof`) are reals, and single-precision rounding of `stof` is not modelled.
- Exceptions. `std::stoi` and `std::stof` throw on unreadable text, and `fromXml` catches those exceptions. Numeric attributes here are already numbers.
- ConfigIo.FromXml: does not model `loadFactor` scaling of `lmax`, the reading of `jitStart` and of the VL paths, or the `VlinkConfig` fields set from parameters (cell size, `voqL`, scheme, `bpMaxIter`). `sminDefault` is a parameter.
- ConfigIo.FromXml and ConfigIo.ReadLinks: require a link element when no rate is forced. The source reads the first link's capacity through the null result of `FirstChildElement("link")` when there is none (configio.cpp:34-36), and no exception is raised that `fromXml` could catch.
- Port objects. The `Port` constructor and `portCoords` (configio.h and the rest of configio.cpp are not part of this model) are given as data. A device's ports are a sequence of records with their `prevDevice` and `outPrev`, in the order `Device::AddPorts` appends them (algo.cpp:21-26), and `getPort` searches that sequence. algo.h:137 declares the ports as a `std::map` keyed by port id, which would iterate in port-id order. `Vnode::Vnode` takes the first port linked from the parent's device (algo.cpp:102-107). When a device has several such ports, as the two ends of an expanded aggregated link do, the model picks the first in append order, and that order can differ from port-id order.
- VlinkTree.BuildVlink: a later path whose first device is not the source (an `assert` in the source) and an empty later path (undefined behaviour in the source) both become the error WrongSource. The other `assert`s become errors too: no path, a short first path, a path already present, an unknown device, no input port.
- Network.VlinkConfig.GetVlink: the `assert` that the id is present is a precondition. The same holds for GetDevice, ConnectedPort, PortDevice and Network.GetPort.
- Network.VlinkConfig.CalcChainMaxSize: the value of `chainMaxSize` before the call is not used, and the use of `chainMaxSize` by `prepareCalc` is not part of this model.
- PortDelays.VoqDelays.CalcFirst: the delay formulas of `VoqA`, `VoqB` and `Mock` are not modelled. The stored `dmin` and jitter are parameters, and so is `outPrevLoadSum` for PortDelays.VoqDelays.CalcCommon (`calcOutPrevLoad` is not part of this model). The `assert(localMaxDelay >= localMinDelay)` is therefore not modelled.
- PortDelays.CompleteCheck: the `defaultIntMap` and each successor's `outPrevLoad` table are given as maps. The `dynamic_cast` to `Voq` is not modelled.
- `getInDelay`, `e2e`, `prepareCalc`, `calcE2e`, `detectCycles` and the delay factory are outside the core and not modelled.
- DeletePaths.VirtualLinks.DeletePaths: requires a VL with the given number. The source dereferences a null pointer when there is none.
- DeletePaths.ParseCycle: an empty token list (undefined behaviour in the source, which reads from `begin() + 1`) is modelled as None. The loop of `main` that re-reads the document and detects cycles until none is left is not modelled; one parse and one deletion are.
- Randomness. Python's `random.seed` and `random.choice` are replaced by the draw stream `rng`. The distribution of the draws is not modelled, only which draw each call uses.
- Aliasing. The XML element objects are not shared. The copied attribute dictionary of `SubElement` is modelled by value.

## Findings

| source | as written | input that shows it | evidently intended | confidence | as-written member | corrected member |
|---|---|---|---|---|---|---|
| delaytool/source/delay.cpp:47-50 | `size + (-size % cellSize)` with C++ `%` (truncating) rounds a positive size down to a multiple of the cell size | size 1, cell size 64 gives 0; size 65 gives 64 | round up to a whole number of cells (the comment's "whole number of cells" and the Python-style `-size % c` idiom): 64 and 128 | medium, not executed | DelayMath.SizeRoundDropsPartialCell | DelayMath.SizeRoundUpIsNextMultiple |
