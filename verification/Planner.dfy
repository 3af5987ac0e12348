/** Choosing the new replica set of a chunk (src/meta/reconfig_driver.cpp) for its three
    callers: the policy, AddReplica and RemoveReplica (src/meta/meta_rpc.cpp). */
module Planner {
  import opened Text
  import opened Sets
  import opened Coordinator
  import opened Placement

  // ---------------------------------------------------------------- what is kept

  /** The ids already in place, first occurrences only, without the excluded node. */
  function Kept(ids: seq<string>, removed: string): seq<string> {
    if ids == [] then []
    else
      var init, id := Kept(ids[..|ids| - 1], removed), ids[|ids| - 1];
      if (removed != "" && id == removed) || id in init then init else init + [id]
  }

  function Targets(ids: seq<string>, added: string, removed: string): seq<string> {
    var kept := Kept(ids, removed);
    if added != "" && added !in kept then kept + [added] else kept
  }

  function Other(ids: seq<string>, added: string): seq<string> {
    if ids == [] then []
    else
      var init, id := Other(ids[..|ids| - 1], added), ids[|ids| - 1];
      if id == added then init else init + [id]
  }

  function Take(ids: seq<string>, n: nat): seq<string> {
    if |ids| <= n then ids else ids[..n]
  }

  /** What remains in place after trimming; trimming drops the included node first. */
  function Base(ids: seq<string>, newRf: nat, added: string, removed: string): seq<string> {
    var targets := Targets(ids, added, removed);
    if |targets| > newRf then Take(Other(targets, added), newRf) else targets
  }

  /** A plan: the base, topped up to exactly `newRf` distinct ids with other alive nodes. */
  ghost predicate Planned(ids: seq<string>, newRf: nat, added: string, removed: string,
                          alive: seq<NodeEntry>, plan: seq<string>) {
    var base := Base(ids, newRf, added, removed);
    ToppedUp(base, newRf, alive, plan) && (added != "" ==> added in Ids(alive))
  }

  ghost predicate ToppedUp(base: seq<string>, newRf: nat, alive: seq<NodeEntry>, plan: seq<string>) {
    && |plan| == newRf && Distinct(plan) && base <= plan
    && forall i :: |base| <= i < |plan| ==> plan[i] in Ids(alive) && plan[i] !in base
  }

  /** The plan itself: the base topped up with the best-scored other nodes, if there are enough. */
  ghost function PlanOf(cfg: Config, ids: seq<string>, newRf: int, added: string, removed: string,
                        alive: seq<NodeEntry>): Option<seq<string>> {
    if (added != "" && added !in Ids(alive)) || newRf < 0 then None
    else FilledUp(cfg, Base(ids, newRf, added, removed), newRf, alive)
  }

  ghost function FilledUp(cfg: Config, base: seq<string>, newRf: nat, alive: seq<NodeEntry>): Option<seq<string>> {
    var all := base + Ids(Top(StaticScore(cfg), Candidates(alive, Elements(base)), newRf - |base|));
    if |all| < newRf then None else Some(all)
  }

  lemma DistinctSnoc(s: seq<string>, x: string)
    requires Distinct(s) && x !in s
    ensures Distinct(s + [x])
  {}

  lemma {:induction false} KeptDistinct(ids: seq<string>, removed: string)
    ensures Distinct(Kept(ids, removed))
    ensures forall x :: x in Kept(ids, removed) <==> x in ids && (removed == "" || x != removed)
  {
    if ids != [] {
      KeptDistinct(ids[..|ids| - 1], removed);
    }
  }

  lemma {:induction false} OtherDistinct(ids: seq<string>, added: string)
    requires Distinct(ids)
    ensures Distinct(Other(ids, added)) && |Other(ids, added)| >= |ids| - 1
    ensures forall x :: x in Other(ids, added) <==> x in ids && x != added
    ensures added !in ids ==> Other(ids, added) == ids
  {
    if ids != [] {
      var init, id := ids[..|ids| - 1], ids[|ids| - 1];
      OtherDistinct(init, added);
      assert ids == init + [id] && id !in init;
      DistinctSnoc(Other(init, added), id);
    }
  }

  lemma TargetsDistinct(ids: seq<string>, added: string, removed: string)
    ensures Distinct(Targets(ids, added, removed))
  {
    KeptDistinct(ids, removed);
    if added !in Kept(ids, removed) {
      DistinctSnoc(Kept(ids, removed), added);
    }
  }

  lemma TakeDistinct(s: seq<string>, n: nat)
    requires Distinct(s)
    ensures Distinct(Take(s, n)) && |Take(s, n)| <= n && forall x <- Take(s, n) :: x in s
  {}

  lemma BaseDistinct(ids: seq<string>, newRf: nat, added: string, removed: string)
    ensures var b := Base(ids, newRf, added, removed);
      Distinct(b) && |b| <= newRf && forall x <- b :: x in Targets(ids, added, removed)
    ensures Distinct(Targets(ids, added, removed))
  {
    TargetsDistinct(ids, added, removed);
    OtherDistinct(Targets(ids, added, removed), added);
    TakeDistinct(Other(Targets(ids, added, removed), added), newRf);
  }

  // ---------------------------------------------------------------- the planner

  method Plan(cfg: Config, ids: seq<string>, newRf: int, added: string, removed: string, alive: seq<NodeEntry>)
    returns (r: Option<seq<string>>)
    requires DistinctIds(alive)
    ensures r == PlanOf(cfg, ids, newRf, added, removed, alive)
    ensures r.Some? ==> newRf >= 0 && Planned(ids, newRf, added, removed, alive, r.value)
    ensures r.None? <==>
      || (added != "" && added !in Ids(alive)) || newRf < 0
      || (var base := Base(ids, newRf, added, removed);
          |Candidates(alive, Elements(base))| < newRf - |base|)
  {
    if added != "" && added !in Ids(alive) {
      return None;
    }
    var targetIds, targetSet := InitialTargets(ids, added, removed);
    if newRf < 0 {
      return None;
    }
    BaseDistinct(ids, newRf, added, removed);
    if |targetIds| > newRf {
      targetIds := Trim(targetIds, added, newRf);
      targetSet := set x | x in targetIds;
    }
    assert targetIds == Base(ids, newRf, added, removed);
    r := TopUp(cfg, targetIds, newRf, targetSet, alive);
  }

  method InitialTargets(ids: seq<string>, added: string, removed: string)
    returns (targetIds: seq<string>, targetSet: set<string>)
    ensures targetIds == Targets(ids, added, removed) && targetSet == Elements(targetIds)
  {
    targetIds, targetSet := KeepOld(ids, removed);
    if added != "" && added !in targetSet {
      targetSet := targetSet + {added};
      targetIds := targetIds + [added];
    }
  }

  /** Fills the targets up to `newRf` with placed nodes, or fails for lack of candidates. */
  method TopUp(cfg: Config, base: seq<string>, newRf: nat, chosen: set<string>, alive: seq<NodeEntry>)
    returns (r: Option<seq<string>>)
    requires DistinctIds(alive) && Distinct(base) && |base| <= newRf && chosen == Elements(base)
    ensures r == FilledUp(cfg, base, newRf, alive)
    ensures r.Some? ==> ToppedUp(base, newRf, alive, r.value)
    ensures r.None? <==> |Candidates(alive, Elements(base))| < newRf - |base|
  {
    var targetIds := base;
    if |targetIds| < newRf {
      var selected := SelectNodes(cfg, newRf - |targetIds|, alive, chosen);
      assert forall i :: 0 <= i < |selected| ==> selected[i] !in base;
      targetIds := AddSelected(targetIds, selected);
    } else {
      assert base + Ids(Top(StaticScore(cfg), Candidates(alive, Elements(base)), 0)) == base;
    }
    if |targetIds| < newRf {
      return None;
    }
    return Some(targetIds);
  }

  method KeepOld(ids: seq<string>, removed: string) returns (targetIds: seq<string>, targetSet: set<string>)
    ensures targetIds == Kept(ids, removed) && targetSet == Elements(targetIds)
  {
    targetIds, targetSet := [], {};
    for i := 0 to |ids|
      invariant targetIds == Kept(ids[..i], removed) && targetSet == Elements(targetIds)
    {
      assert ids[..i + 1][..i] == ids[..i];
      if removed != "" && ids[i] == removed {
        continue;
      }
      if ids[i] !in targetSet {
        targetSet := targetSet + {ids[i]};
        targetIds := targetIds + [ids[i]];
      }
    }
    assert ids[..|ids|] == ids;
  }

  /** The trimming loop, with its re-insertion branch that never runs. */
  method Trim(targets: seq<string>, added: string, newRf: nat) returns (trimmed: seq<string>)
    requires Distinct(targets) && |targets| > newRf
    ensures trimmed == Take(Other(targets, added), newRf)
  {
    trimmed := [];
    var i := 0;
    while i < |targets|
      invariant 0 <= i <= |targets|
      invariant trimmed == Take(Other(targets[..i], added), newRf)
    {
      assert targets[..i + 1][..i] == targets[..i];
      if targets[i] == added {
        i := i + 1;
        continue;
      }
      if |trimmed| >= newRf {
        OtherPrefix(targets, added, i);
        break;
      }
      trimmed := trimmed + [targets[i]];
      i := i + 1;
    }
    assert targets[..|targets|] == targets;
    OtherDistinct(targets, added);
    if added != "" && |trimmed| < newRf {
      trimmed := trimmed + [added];
    }
  }

  lemma {:induction false} OtherPrefix(ids: seq<string>, added: string, i: nat)
    requires i <= |ids|
    ensures Other(ids[..i], added) <= Other(ids, added)
    decreases |ids| - i
  {
    if i < |ids| {
      assert ids[..i + 1][..i] == ids[..i];
      OtherPrefix(ids, added, i + 1);
    } else {
      assert ids[..i] == ids;
    }
  }

  method AddSelected(base: seq<string>, selected: seq<string>) returns (ids: seq<string>)
    requires Distinct(selected) && forall i :: 0 <= i < |selected| ==> selected[i] !in base
    ensures ids == base + selected
  {
    ids := base;
    for i := 0 to |selected|
      invariant ids == base + selected[..i]
    {
      assert selected[i] !in selected[..i];
      if selected[i] !in ids {
        ids := ids + [selected[i]];
      }
    }
  }

  // ---------------------------------------------------------------- the three callers

  /** A policy change keeps every old node when it grows and drops old nodes only when it
      shrinks, so the two sets share as many nodes as the smaller one has. */
  lemma PolicyPlan(ids: seq<string>, newRf: nat, alive: seq<NodeEntry>, plan: seq<string>)
    requires Distinct(ids) && Planned(ids, newRf, "", "", alive, plan)
    ensures |plan| == newRf && Distinct(plan)
    ensures if |ids| <= newRf then ids <= plan else Elements(plan) <= Elements(ids)
    ensures |Elements(plan) * Elements(ids)| == if |ids| <= newRf then |ids| else newRf
  {
    KeptAll(ids, "");
    OtherDistinct(ids, "");
    DistinctSize(plan);
    DistinctSize(ids);
    if |ids| <= newRf {
      assert ids <= plan;
      assert forall x <- ids :: x in plan;
      assert Elements(plan) * Elements(ids) == Elements(ids);
    } else {
      assert plan == Base(ids, newRf, "", "");
      assert forall x <- plan :: x in Other(ids, "");
      assert Elements(plan) * Elements(ids) == Elements(plan);
    }
  }

  /** AddReplica appends the new node to the old ones. */
  lemma AddPlan(ids: seq<string>, node: string, alive: seq<NodeEntry>, plan: seq<string>)
    requires Distinct(ids) && node != "" && node !in ids
    requires Planned(ids, |ids| + 1, node, "", alive, plan)
    ensures plan == ids + [node] && node in Ids(alive)
  {
    KeptAll(ids, "");
    assert Base(ids, |ids| + 1, node, "") == ids + [node];
  }

  /** RemoveReplica keeps all the old nodes but the removed one, in their order. */
  lemma RemovePlan(ids: seq<string>, node: string, alive: seq<NodeEntry>, plan: seq<string>)
    requires Distinct(ids) && node != "" && node in ids
    requires Planned(ids, |ids| - 1, "", node, alive, plan)
    ensures plan == Other(ids, node) && Elements(plan) == Elements(ids) - {node}
  {
    KeptIsOther(ids, node);
    KeptDistinct(ids, node);
    OtherDistinct(ids, node);
    OtherShorter(ids, node);
    assert plan == Base(ids, |ids| - 1, "", node);
  }

  lemma FilledUpIs(cfg: Config, base: seq<string>, newRf: nat, alive: seq<NodeEntry>)
    requires |base| <= newRf
    ensures var r := FilledUp(cfg, base, newRf, alive);
      && (r.Some? <==> newRf - |base| <= |Candidates(alive, Elements(base))|)
      && (r.Some? ==> |r.value| == newRf && base <= r.value)
    ensures |base| == newRf ==> FilledUp(cfg, base, newRf, alive) == Some(base)
  {
    var top := Top(StaticScore(cfg), Candidates(alive, Elements(base)), newRf - |base|);
    TopTakes(StaticScore(cfg), Candidates(alive, Elements(base)), newRf - |base|);
    assert |base + Ids(top)| == |base| + |top|;
    if |base| == newRf {
      assert base + Ids(top) == base;
    }
  }

  lemma PolicyBase(ids: seq<string>, rf: nat)
    requires Distinct(ids) && "" !in ids
    ensures Base(ids, rf, "", "") == if |ids| > rf then ids[..rf] else ids
  {
    KeptAll(ids, "");
    OtherDistinct(ids, "");
  }

  /** The plans themselves. A policy plan exists when there are nodes enough and extends or
      shortens the old ids at the end. */
  lemma PolicyPlanIs(cfg: Config, ids: seq<string>, rf: nat, alive: seq<NodeEntry>)
    requires Distinct(ids) && "" !in ids
    ensures var plan := PlanOf(cfg, ids, rf, "", "", alive);
      && (plan.Some? <==> rf - |ids| <= |Candidates(alive, Elements(ids))|)
      && (plan.Some? ==> |plan.value| == rf && (plan.value <= ids || ids <= plan.value))
  {
    PolicyBase(ids, rf);
    FilledUpIs(cfg, Base(ids, rf, "", ""), rf, alive);
  }

  lemma AddBase(ids: seq<string>, node: string)
    requires Distinct(ids) && node != "" && node !in ids
    ensures Base(ids, |ids| + 1, node, "") == ids + [node]
  {
    KeptAll(ids, "");
  }

  /** AddReplica always finds its plan when the node is alive. */
  lemma AddPlanIs(cfg: Config, ids: seq<string>, node: string, alive: seq<NodeEntry>)
    requires Distinct(ids) && node != "" && node !in ids
    ensures PlanOf(cfg, ids, |ids| + 1, node, "", alive) == if node in Ids(alive) then Some(ids + [node]) else None
  {
    AddBase(ids, node);
    FilledUpIs(cfg, ids + [node], |ids| + 1, alive);
  }

  lemma RemoveBase(ids: seq<string>, node: string, k: nat)
    requires Distinct(ids) && node != "" && k < |ids| && ids[k] == node
    ensures Base(ids, |ids| - 1, "", node) == ids[..k] + ids[k + 1..]
  {
    KeptIsOther(ids, node);
    OtherIsCut(ids, node, k);
  }

  /** RemoveReplica always finds its plan. */
  lemma RemovePlanIs(cfg: Config, ids: seq<string>, node: string, alive: seq<NodeEntry>, k: nat)
    requires Distinct(ids) && node != "" && k < |ids| && ids[k] == node
    ensures PlanOf(cfg, ids, |ids| - 1, "", node, alive) == Some(ids[..k] + ids[k + 1..])
  {
    RemoveBase(ids, node, k);
    FilledUpIs(cfg, ids[..k] + ids[k + 1..], |ids| - 1, alive);
  }

  lemma {:induction false} OtherIsCut(ids: seq<string>, node: string, k: nat)
    requires Distinct(ids) && k < |ids| && ids[k] == node
    ensures Other(ids, node) == ids[..k] + ids[k + 1..]
  {
    var n := |ids| - 1;
    var init := ids[..n];
    if k == n {
      OtherDistinct(init, node);
      assert node !in init;
    } else {
      OtherIsCut(init, node, k);
      assert init[..k] == ids[..k] && init[k + 1..] + [ids[n]] == ids[k + 1..];
    }
  }

  lemma {:induction false} KeptAll(ids: seq<string>, removed: string)
    requires Distinct(ids) && (removed == "" || removed !in ids)
    ensures Kept(ids, removed) == ids
  {
    if ids != [] {
      KeptAll(ids[..|ids| - 1], removed);
    }
  }

  lemma {:induction false} KeptIsOther(ids: seq<string>, node: string)
    requires Distinct(ids) && node != ""
    ensures Kept(ids, node) == Other(ids, node)
  {
    if ids != [] {
      var init := ids[..|ids| - 1];
      KeptIsOther(init, node);
      KeptDistinct(init, node);
    }
  }

  lemma {:induction false} OtherShorter(ids: seq<string>, node: string)
    requires Distinct(ids) && node in ids
    ensures |Other(ids, node)| == |ids| - 1
  {
    var init := ids[..|ids| - 1];
    if ids[|ids| - 1] == node {
      OtherDistinct(init, node);
    } else {
      OtherShorter(init, node);
    }
  }

  /** Any call with a node to add plans it in exactly when nothing has to be trimmed: the
      trimming loop drops it first and its re-insertion branch never runs. */
  lemma AddedUnlessTrimmed(ids: seq<string>, newRf: nat, added: string, removed: string,
                           alive: seq<NodeEntry>, plan: seq<string>)
    requires added != "" && Planned(ids, newRf, added, removed, alive, plan)
    ensures added in plan <==> |Targets(ids, added, removed)| <= newRf
  {
    BaseDistinct(ids, newRf, added, removed);
    OtherDistinct(Targets(ids, added, removed), added);
    var base := Base(ids, newRf, added, removed);
    if |Targets(ids, added, removed)| <= newRf {
      assert added in base;
    } else {
      assert plan == base;
    }
  }

  lemma IdIn(nodes: seq<NodeEntry>, x: string)
    ensures x in Ids(nodes) <==> exists n <- nodes :: n.nodeId == x
  {
    if x in Ids(nodes) {
      var k :| 0 <= k < |Ids(nodes)| && Ids(nodes)[k] == x;
      assert nodes[k] in nodes;
    }
    if n :| n in nodes && n.nodeId == x {
      var k :| 0 <= k < |nodes| && nodes[k] == n;
      assert Ids(nodes)[k] == x;
    }
  }

  /** The ids of the candidates are those of the alive nodes that are not excluded. */
  lemma CandidateIds(alive: seq<NodeEntry>, exclude: set<string>)
    requires DistinctIds(alive)
    ensures Elements(Ids(Candidates(alive, exclude))) == Elements(Ids(alive)) - exclude
    ensures |Elements(Ids(Candidates(alive, exclude)))| == |Candidates(alive, exclude)|
    ensures Distinct(Ids(Candidates(alive, exclude)))
  {
    var cands := Candidates(alive, exclude);
    forall x ensures x in Ids(cands) <==> x in Ids(alive) && x !in exclude {
      IdIn(cands, x);
      IdIn(alive, x);
    }
    CandidatesDistinct(alive, exclude);
    DistinctSize(Ids(cands));
  }

  lemma RemovedNotInBase(ids: seq<string>, newRf: nat, added: string, removed: string)
    requires removed != "" && removed != added
    ensures removed !in Base(ids, newRf, added, removed)
  {
    KeptDistinct(ids, removed);
    BaseDistinct(ids, newRf, added, removed);
  }

  /** Topping up can bring the removed node back: the base lacks nodes, the removed one is alive
      and there are enough candidates. */
  ghost predicate MayReturn(base: seq<string>, newRf: nat, removed: string, alive: seq<NodeEntry>) {
    |base| < newRf && removed in Ids(alive) && |Candidates(alive, Elements(base))| >= newRf - |base|
  }

  /** The nodes a plan tops up with are candidates. */
  lemma ToppedUpAreCandidates(base: seq<string>, newRf: nat, alive: seq<NodeEntry>, plan: seq<string>)
    requires DistinctIds(alive) && ToppedUp(base, newRf, alive, plan)
    ensures newRf - |base| <= |Candidates(alive, Elements(base))|
  {
    var more := plan[|base|..];
    forall m | 0 <= m < |more| ensures more[m] in Ids(alive) && more[m] !in base {
      assert plan[|base| + m] == more[m];
    }
    CandidateIds(alive, Elements(base));
    DistinctSize(more);
    assert Elements(more) <= Elements(Ids(alive)) - Elements(base);
    SubsetSize(Elements(more), Elements(Ids(alive)) - Elements(base));
  }

  lemma ReturnNeedsRoom(base: seq<string>, newRf: nat, removed: string, alive: seq<NodeEntry>, plan: seq<string>)
    requires DistinctIds(alive) && ToppedUp(base, newRf, alive, plan) && removed in plan && removed !in base
    ensures MayReturn(base, newRf, removed, alive)
  {
    var k :| 0 <= k < |plan| && plan[k] == removed;
    ToppedUpAreCandidates(base, newRf, alive, plan);
  }

  lemma OneFewer(alive: seq<NodeEntry>, taken: set<string>, removed: string)
    requires DistinctIds(alive) && removed in Ids(alive) && removed !in taken
    ensures |Candidates(alive, taken)| == |Candidates(alive, taken + {removed})| + 1
  {
    CandidateIds(alive, taken);
    CandidateIds(alive, taken + {removed});
    var rest := Elements(Ids(Candidates(alive, taken + {removed})));
    assert removed in Elements(Ids(alive)) && removed !in rest;
    assert Elements(Ids(alive)) - taken == rest + {removed};
  }

  lemma DistinctConcat(a: seq<string>, b: seq<string>)
    requires Distinct(a) && Distinct(b) && forall k :: 0 <= k < |b| ==> b[k] !in a
    ensures Distinct(a + b)
  {
    forall i, j | 0 <= i < j < |a + b| ensures (a + b)[i] != (a + b)[j] {
      if i < |a| <= j {
        assert b[j - |a|] !in a;
      }
    }
  }

  lemma PlanWith(base: seq<string>, more: seq<string>, alive: seq<NodeEntry>)
    requires Distinct(base) && Distinct(more) && forall k :: 0 <= k < |more| ==> more[k] in Ids(alive) && more[k] !in base
    ensures ToppedUp(base, |base| + |more|, alive, base + more)
  {
    DistinctConcat(base, more);
  }

  /** The removed node and other candidates, as many as are needed. */
  lemma ReturnWith(taken: set<string>, removed: string, alive: seq<NodeEntry>, n: nat) returns (more: seq<string>)
    requires DistinctIds(alive) && removed in Ids(alive) && removed !in taken && 0 < n <= |Candidates(alive, taken)|
    ensures |more| == n && Distinct(more) && more[0] == removed
    ensures forall k :: 0 <= k < n ==> more[k] in Ids(alive) && more[k] !in taken
  {
    OneFewer(alive, taken, removed);
    CandidateIds(alive, taken + {removed});
    var rest := Ids(Candidates(alive, taken + {removed}));
    var others := rest[..n - 1];
    forall k | 0 <= k < n - 1 ensures others[k] in Ids(alive) && others[k] !in taken && others[k] != removed {
      assert others[k] == rest[k] && rest[k] in Elements(rest);
      assert rest[k] in Elements(Ids(alive)) - (taken + {removed});
    }
    more := [removed] + others;
    DistinctConcat([removed], others);
  }

  lemma RoomForReturn(base: seq<string>, newRf: nat, removed: string, alive: seq<NodeEntry>)
    requires DistinctIds(alive) && Distinct(base) && MayReturn(base, newRf, removed, alive) && removed !in base
    ensures exists plan :: ToppedUp(base, newRf, alive, plan) && removed in plan
  {
    var more := ReturnWith(Elements(base), removed, alive, newRf - |base|);
    PlanWith(base, more, alive);
    assert (base + more)[|base|] == removed;
  }

  /** Some plan contains the removed node exactly when topping up can bring it back. */
  lemma RemovedReturnsExactly(ids: seq<string>, newRf: nat, added: string, removed: string, alive: seq<NodeEntry>)
    requires DistinctIds(alive) && removed != "" && removed != added && (added != "" ==> added in Ids(alive))
    ensures (exists plan :: Planned(ids, newRf, added, removed, alive, plan) && removed in plan)
      <==> MayReturn(Base(ids, newRf, added, removed), newRf, removed, alive)
  {
    var base := Base(ids, newRf, added, removed);
    RemovedNotInBase(ids, newRf, added, removed);
    BaseDistinct(ids, newRf, added, removed);
    if plan :| Planned(ids, newRf, added, removed, alive, plan) && removed in plan {
      ReturnNeedsRoom(base, newRf, removed, alive, plan);
    }
    if MayReturn(base, newRf, removed, alive) {
      RoomForReturn(base, newRf, removed, alive);
      var plan :| ToppedUp(base, newRf, alive, plan) && removed in plan;
      assert Planned(ids, newRf, added, removed, alive, plan);
    }
  }

  // ---------------------------------------------------------------- replica entries

  /** The address of the first node with the given id, or nothing. */
  function AddressOf(id: string, nodes: seq<NodeEntry>): Option<string> {
    if nodes == [] then None
    else if nodes[0].nodeId == id then Some(nodes[0].address)
    else AddressOf(id, nodes[1..])
  }

  /** A replica entry names a node and, when the node is alive, its address. */
  function EncodeTarget(id: string, nodes: seq<NodeEntry>): string {
    var a := AddressOf(id, nodes);
    if a.Some? then id + "=" + a.value else id
  }

  function EncodeTargets(ids: seq<string>, nodes: seq<NodeEntry>): (r: seq<string>)
    ensures |r| == |ids| && forall i :: 0 <= i < |r| ==> r[i] == EncodeTarget(ids[i], nodes)
  {
    seq(|ids|, i requires 0 <= i < |ids| => EncodeTarget(ids[i], nodes))
  }

  /** Where an entry is reached; the empty string when no address is known. */
  function ResolveAddress(entry: string, nodes: seq<NodeEntry>): string {
    var id := NodeIdOf(entry);
    if |id| < |entry| then entry[|id| + 1..]
    else
      var a := AddressOf(entry, nodes);
      if a.Some? then a.value else ""
  }

  lemma {:induction false} NodeIdOfEncoded(id: string, rest: string)
    requires Free(id, '=') && (rest == "" || rest[0] == '=')
    ensures NodeIdOf(id + rest) == id
  {
    if id == "" {
      assert id + rest == rest;
    } else {
      assert (id + rest)[1..] == id[1..] + rest;
      NodeIdOfEncoded(id[1..], rest);
    }
  }

  /** Encoding keeps the node id, and an alive node is reached at its own address. */
  lemma EncodedTarget(id: string, nodes: seq<NodeEntry>)
    requires Free(id, '=')
    ensures NodeIdOf(EncodeTarget(id, nodes)) == id
    ensures ResolveAddress(EncodeTarget(id, nodes), nodes)
      == if AddressOf(id, nodes).Some? then AddressOf(id, nodes).value else ""
  {
    var a := AddressOf(id, nodes);
    if a.Some? {
      assert id + "=" + a.value == id + ("=" + a.value);
      NodeIdOfEncoded(id, "=" + a.value);
      assert (id + "=" + a.value)[|id| + 1..] == a.value;
    } else {
      NodeIdOfEncoded(id, "");
      assert id + "" == id;
    }
  }

  /** Distinct planned nodes give entries with distinct nodes. */
  lemma EncodedDistinct(ids: seq<string>, nodes: seq<NodeEntry>)
    requires Distinct(ids) && forall i :: 0 <= i < |ids| ==> Free(ids[i], '=')
    ensures DistinctNodes(EncodeTargets(ids, nodes)) && NodeIds(EncodeTargets(ids, nodes)) == ids
  {
    forall i | 0 <= i < |ids| ensures NodeIds(EncodeTargets(ids, nodes))[i] == ids[i] {
      EncodedTarget(ids[i], nodes);
    }
  }

  lemma {:induction false} NodeIdFree(entry: string)
    ensures Free(NodeIdOf(entry), '=')
    ensures NodeIdOf(entry) <= entry
  {
    if entry != "" && entry[0] != '=' {
      NodeIdFree(entry[1..]);
    }
  }
}
