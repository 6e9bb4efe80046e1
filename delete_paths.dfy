/** deletepaths.cpp: the tool that breaks a cycle reported by the delay
    calculation by deleting, from one virtual link of the document, the
    paths that lead to some destinations. The document's `virtualLinks`
    element is the sequence of its `virtualLink` records, which the tool
    edits in place. */
module DeletePaths {
  import opened Wrappers
  import opened Topology
  import Csv

  // ---------------------------------------------------------------------
  // What a deletion leaves

  /** The first virtual link numbered vlId. */
  function FirstNumbered(ls: seq<VirtualLinkRec>, vlId: int): (r: Option<nat>)
    ensures r.Some? ==> (r.value < |ls| && ls[r.value].number == vlId &&
      forall k :: 0 <= k < r.value ==> ls[k].number != vlId)
    ensures r.None? ==> forall k :: 0 <= k < |ls| ==> ls[k].number != vlId
    decreases |ls|
  {
    if ls == [] then None
    else if ls[0].number == vlId then Some(0)
    else match FirstNumbered(ls[1..], vlId)
      case None => None
      case Some(i) => Some(i + 1)
  }

  /** The paths whose destination is not in dests, in their order. */
  function Keep(ps: seq<PathRec>, dests: set<int>): seq<PathRec>
    decreases |ps|
  {
    if ps == [] then []
    else
      var last := ps[|ps| - 1];
      Keep(ps[..|ps| - 1], dests) + (if last.dest in dests then [] else [last])
  }

  /** The virtual links after deleting from the first one numbered vlId
      its paths to dests, and dropping that link once it has none left. */
  function AfterDelete(ls: seq<VirtualLinkRec>, vlId: int, dests: set<int>): seq<VirtualLinkRec>
    requires FirstNumbered(ls, vlId).Some?
  {
    var i := FirstNumbered(ls, vlId).value;
    var kept := Keep(ls[i].paths, dests);
    if kept == [] then ls[..i] + ls[i + 1..]
    else ls[i := VirtualLinkRec(ls[i].number, kept)]
  }

  // ---------------------------------------------------------------------
  // The document being edited

  class VirtualLinks {
    var links: seq<VirtualLinkRec>

    constructor(ls: seq<VirtualLinkRec>)
      ensures links == ls
    {
      links := ls;
    }

    /** `deletePaths`: the caller passes the number of a virtual link the
        document has (a missing one is dereferenced as null). */
    method DeletePaths(vlId: int, dests: set<int>)
      requires exists k :: 0 <= k < |links| && links[k].number == vlId
      modifies this
      ensures old(FirstNumbered(links, vlId)).Some?
      ensures links == AfterDelete(old(links), vlId, dests)
    {
      var cur := FindVl(links, vlId);
      var paths := links[cur].paths;
      var toDelete := Matching(paths, dests);
      var kept := Remaining(paths, toDelete);
      MatchingKeep(paths, dests, toDelete, kept);
      if kept == [] {
        links := links[..cur] + links[cur + 1..];
      } else {
        links := links[cur := VirtualLinkRec(links[cur].number, kept)];
      }
    }
  }

  /** The search loop: the first virtual link with that number. */
  method FindVl(ls: seq<VirtualLinkRec>, vlId: int) returns (cur: nat)
    requires exists k :: 0 <= k < |ls| && ls[k].number == vlId
    ensures FirstNumbered(ls, vlId) == Some(cur)
  {
    cur := 0;
    while ls[cur].number != vlId
      invariant cur < |ls| && forall k :: 0 <= k < cur ==> ls[k].number != vlId
      decreases |ls| - cur
    {
      cur := cur + 1;
      if cur == |ls| {
        var k :| 0 <= k < |ls| && ls[k].number == vlId;
        assert false;
      }
    }
    FirstNumberedAt(ls, vlId, cur);
  }

  /** The collecting loop: the positions of the paths to delete. */
  method Matching(ps: seq<PathRec>, dests: set<int>) returns (toDelete: set<int>)
    ensures forall k :: k in toDelete <==> 0 <= k < |ps| && ps[k].dest in dests
  {
    toDelete := {};
    for j := 0 to |ps|
      invariant forall k :: k in toDelete <==> 0 <= k < j && ps[k].dest in dests
    {
      if ps[j].dest in dests {
        toDelete := toDelete + {j};
      }
    }
  }

  /** The deleting loop: the children not collected, in their order. */
  method Remaining(ps: seq<PathRec>, toDelete: set<int>) returns (kept: seq<PathRec>)
    ensures kept == KeepAt(ps, toDelete)
  {
    kept := [];
    for j := 0 to |ps|
      invariant kept == KeepAt(ps[..j], toDelete)
    {
      assert ps[..j + 1][..j] == ps[..j];
      kept := kept + (if j in toDelete then [] else [ps[j]]);
    }
    assert ps[..|ps|] == ps;
  }

  /** The paths at positions outside del. */
  function KeepAt(ps: seq<PathRec>, del: set<int>): seq<PathRec>
    decreases |ps|
  {
    if ps == [] then []
    else KeepAt(ps[..|ps| - 1], del) + (if |ps| - 1 in del then [] else [ps[|ps| - 1]])
  }

  lemma {:induction false} MatchingKeep(ps: seq<PathRec>, dests: set<int>, del: set<int>, kept: seq<PathRec>)
    requires forall k :: k in del <==> 0 <= k < |ps| && ps[k].dest in dests
    requires kept == KeepAt(ps, del)
    ensures kept == Keep(ps, dests)
    decreases |ps|
  {
    if ps != [] {
      var init := ps[..|ps| - 1];
      var del' := set k | k in del && k < |init|;
      MatchingKeep(init, dests, del', KeepAt(init, del'));
      KeepAtSame(init, del, del');
    }
  }

  lemma {:induction false} KeepAtSame(ps: seq<PathRec>, a: set<int>, b: set<int>)
    requires forall k :: 0 <= k < |ps| ==> (k in a <==> k in b)
    ensures KeepAt(ps, a) == KeepAt(ps, b)
    decreases |ps|
  {
    if ps != [] {
      KeepAtSame(ps[..|ps| - 1], a, b);
    }
  }

  lemma {:induction false} FirstNumberedAt(ls: seq<VirtualLinkRec>, vlId: int, i: nat)
    requires i < |ls| && ls[i].number == vlId
    requires forall k :: 0 <= k < i ==> ls[k].number != vlId
    ensures FirstNumbered(ls, vlId) == Some(i)
    decreases i
  {
    if i > 0 {
      FirstNumberedAt(ls[1..], vlId, i - 1);
    }
  }

  // ---------------------------------------------------------------------
  // Properties of a deletion

  /** A path is kept exactly when it was there and its destination is not
      in dests. */
  lemma {:induction false} KeepHas(ps: seq<PathRec>, dests: set<int>, p: PathRec)
    ensures p in Keep(ps, dests) <==> p in ps && p.dest !in dests
    decreases |ps|
  {
    if ps != [] {
      var init := ps[..|ps| - 1];
      KeepHas(init, dests, p);
      assert ps == init + [ps[|ps| - 1]];
    }
  }

  /** The kept paths keep their relative order: filtering a concatenation
      filters each part. */
  lemma {:induction false} KeepAppend(a: seq<PathRec>, b: seq<PathRec>, dests: set<int>)
    ensures Keep(a + b, dests) == Keep(a, dests) + Keep(b, dests)
    decreases |b|
  {
    if b != [] {
      var init := b[..|b| - 1];
      assert (a + b)[..|a + b| - 1] == a + init;
      KeepAppend(a, init, dests);
    } else {
      assert a + b == a;
    }
  }

  /** Filtering twice is filtering once. */
  lemma {:induction false} KeepTwice(ps: seq<PathRec>, dests: set<int>)
    ensures Keep(Keep(ps, dests), dests) == Keep(ps, dests)
    decreases |ps|
  {
    if ps != [] {
      var init := ps[..|ps| - 1];
      var last := ps[|ps| - 1];
      KeepTwice(init, dests);
      var tail := if last.dest in dests then [] else [last];
      KeepAppend(Keep(init, dests), tail, dests);
      if last.dest !in dests {
        assert Keep(tail, dests) == Keep([], dests) + tail by {
          assert tail[..0] == [];
        }
      }
    }
  }

  /** Links before the edited one, and after it, are unchanged; the edited
      link keeps its number and only its paths not leading to dests, or is
      gone when it has none left. */
  lemma AfterDeleteShape(ls: seq<VirtualLinkRec>, vlId: int, dests: set<int>)
    requires FirstNumbered(ls, vlId).Some?
    ensures var i := FirstNumbered(ls, vlId).value;
      var kept := Keep(ls[i].paths, dests);
      var r := AfterDelete(ls, vlId, dests);
      r[..i] == ls[..i] &&
      (kept == [] <==> |r| == |ls| - 1) &&
      (kept == [] ==> r[i..] == ls[i + 1..]) &&
      (kept != [] ==> r[i] == VirtualLinkRec(vlId, kept) && r[i + 1..] == ls[i + 1..])
  {
  }

  /** No path of the edited link leads to dests afterwards. */
  lemma AfterDeleteNoDest(ls: seq<VirtualLinkRec>, vlId: int, dests: set<int>, p: PathRec)
    requires FirstNumbered(ls, vlId).Some?
    ensures var i := FirstNumbered(ls, vlId).value;
      var r := AfterDelete(ls, vlId, dests);
      |r| == |ls| ==> (p in r[i].paths <==> p in ls[i].paths && p.dest !in dests)
  {
    var i := FirstNumbered(ls, vlId).value;
    KeepHas(ls[i].paths, dests, p);
  }

  /** While the edited link survives, deleting again changes nothing. */
  lemma AfterDeleteIdempotent(ls: seq<VirtualLinkRec>, vlId: int, dests: set<int>)
    requires FirstNumbered(ls, vlId).Some?
    requires Keep(ls[FirstNumbered(ls, vlId).value].paths, dests) != []
    ensures FirstNumbered(AfterDelete(ls, vlId, dests), vlId).Some?
    ensures AfterDelete(AfterDelete(ls, vlId, dests), vlId, dests) == AfterDelete(ls, vlId, dests)
  {
    var i := FirstNumbered(ls, vlId).value;
    var r := AfterDelete(ls, vlId, dests);
    FirstNumberedAt(r, vlId, i);
    KeepTwice(ls[i].paths, dests);
  }

  // ---------------------------------------------------------------------
  // The cycle error, read back (deletepaths.cpp:96-101)

  /** The tokens of the error text: the first is the virtual link, the
      others the destinations whose paths go. No token leaves nothing to
      read (the source reads past the end). */
  function CycleArgs(ts: seq<int>): (r: Option<(int, set<int>)>)
    ensures r.None? <==> ts == []
    ensures r.Some? ==> (r.value.0 == ts[0] &&
      forall d :: d in r.value.1 <==> exists k :: 1 <= k < |ts| && ts[k] == d)
  {
    if ts == [] then None else Some((ts[0], set k | 1 <= k < |ts| :: ts[k]))
  }

  method ParseCycle(raw: string) returns (r: Option<(int, set<int>)>)
    ensures r == CycleArgs(Csv.Tokens(raw, 0))
  {
    var deleteArgs := Csv.TokenizeCsv(raw);
    if deleteArgs == [] {
      return None;
    }
    var pathArgs: set<int> := {};
    for k := 1 to |deleteArgs|
      invariant forall d :: d in pathArgs <==> exists j :: 1 <= j < k && deleteArgs[j] == d
    {
      pathArgs := pathArgs + {deleteArgs[k]};
    }
    var all := set k | 1 <= k < |deleteArgs| :: deleteArgs[k];
    forall d
      ensures d in pathArgs <==> d in all
    {
      if d in all {
        var j :| 1 <= j < |deleteArgs| && deleteArgs[j] == d;
      }
    }
    assert pathArgs == all;
    r := Some((deleteArgs[0], pathArgs));
  }

  /** A virtual link and destinations written as a comma-separated list
      are read back as that link and the set of those destinations. */
  lemma ParseCycleOfJoin(vlId: int, ds: seq<int>)
    requires Csv.AllInt32([vlId] + ds)
    ensures CycleArgs(Csv.Tokens(Csv.Join([vlId] + ds), 0)) ==
      Some((vlId, set k | 0 <= k < |ds| :: ds[k]))
  {
    var ts := [vlId] + ds;
    Csv.TokensOfJoin(ts);
    var a := set k | 1 <= k < |ts| :: ts[k];
    var b := set k | 0 <= k < |ds| :: ds[k];
    forall d
      ensures d in a <==> d in b
    {
      if d in a {
        var k :| 1 <= k < |ts| && ts[k] == d;
        assert ds[k - 1] == d;
      }
      if d in b {
        var k :| 0 <= k < |ds| && ds[k] == d;
        assert ts[k + 1] == d;
      }
    }
    assert a == b;
  }
}
