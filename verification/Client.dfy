/** The client's get (src/client/nimbus_client.cpp): a version floor from the metadata, the
    current replicas before the old ones, sixty attempts. */
module Client {
  import opened Text
  import opened Coordinator
  import opened Planner
  import opened Cluster
  import opened Leader
  import opened Repair

  const ATTEMPTS: nat := 60

  function ReportedAll(entries: seq<string>, s: State): (r: seq<string>)
    ensures |r| == |entries| && forall i :: 0 <= i < |r| ==> r[i] == Reported(entries[i], s)
  {
    seq(|entries|, i requires 0 <= i < |entries| => Reported(entries[i], s))
  }

  function TryList(e: ChunkEntry, s: State): seq<string> {
    ReportedAll(e.replicaSet, s) + ReportedAll(e.oldReplicaSet, s)
  }

  /** A store that does not answer: it has no version from the floor up. */
  ghost predicate TooOld(stores: Stores, addr: string, id: string, target: nat) {
    forall v :: (id, v) in At(stores, addr) ==> v < target
  }

  /** The i-th replica answers at the address its connection was opened to. */
  ghost predicate AnsweredBy(stubs: map<string, string>, entry: string, stores: Stores, id: string, target: nat, r: (nat, string)) {
    NodeIdOf(entry) in stubs && Serves(stores, stubs[NodeIdOf(entry)], id, target, r.0, r.1)
  }

  class NimbusClient {
    var nodeAddrs: map<string, string>
    /** The address each node's connection was opened to; it is never reopened. */
    var stubs: map<string, string>

    constructor (known: map<string, string>)
      ensures nodeAddrs == known && stubs == map[]
    {
      nodeAddrs, stubs := known, map[];
    }

    method GetOrCreateStub(node: string, addr: string) returns (stub: Option<string>)
      modifies this
      ensures forall n <- old(stubs) :: n in stubs && stubs[n] == old(stubs)[n]
      ensures stub.Some? ==> node in stubs && stub.value == stubs[node]
      ensures stub.None? <==> addr == "" && node !in old(nodeAddrs)
      ensures nodeAddrs == if addr == "" then old(nodeAddrs) else old(nodeAddrs)[node := addr]
      ensures stubs == if stub.None? || node in old(stubs) then old(stubs) else old(stubs)[node := nodeAddrs[node]]
    {
      if addr != "" {
        nodeAddrs := nodeAddrs[node := addr];
      }
      if node !in nodeAddrs {
        return None;
      }
      if node !in stubs {
        stubs := stubs[node := nodeAddrs[node]];
      }
      return Some(stubs[node]);
    }

    method TryRead(entry: string, id: string, floor: nat, world: State, up: bool) returns (r: Option<(nat, string)>)
      modifies this
      ensures forall n <- old(stubs) :: n in stubs && stubs[n] == old(stubs)[n]
      ensures r.Some? ==> up && AnsweredBy(stubs, entry, world.stores, id, floor, r.value)
      ensures r.None? && up && PeerAddress(entry) != "" ==>
        NodeIdOf(entry) in stubs && TooOld(world.stores, stubs[NodeIdOf(entry)], id, floor)
    {
      var stub := GetOrCreateStub(NodeIdOf(entry), PeerAddress(entry));
      if stub.None? || !up {
        return None;
      }
      r := ReadLatest(At(world.stores, stub.value), id, floor);
      assert r.Some? ==> Serves(world.stores, stub.value, id, floor, r.value.0, r.value.1);
    }

    /** One pass over the reported entries in their order. `entries` are the same replicas as the
        table has them. */
    method TryAll(list: seq<string>, id: string, floor: nat, world: nat -> State, up: nat -> bool,
                  ghost entries: seq<string>, ghost meta: State)
      returns (r: Option<(nat, string)>)
      requires list == ReportedAll(entries, meta)
      modifies this
      ensures forall n <- old(stubs) :: n in stubs && stubs[n] == old(stubs)[n]
      ensures r.Some? ==> exists i :: 0 <= i < |entries| && FirstAnswer(stubs, entries, meta.alive, id, floor, world, up, i, r.value)
      ensures r.None? ==> Refused(stubs, entries, meta.alive, id, floor, world, up, |entries|)
    {
      for i := 0 to |list|
        invariant forall n <- old(stubs) :: n in stubs && stubs[n] == old(stubs)[n]
        invariant Refused(stubs, entries, meta.alive, id, floor, world, up, i)
      {
        ghost var before := stubs;
        r := TryRead(list[i], id, floor, world(i), up(i));
        ReportedEntry(entries[i], meta);
        RefusedStays(before, stubs, entries, meta.alive, id, floor, world, up, i);
        if r.Some? {
          assert FirstAnswer(stubs, entries, meta.alive, id, floor, world, up, i, r.value);
          return;
        }
      }
      return None;
    }

    /** A get whose metadata is read in the state after `before` and whose reads are served in
        later states. With a floor not below the metadata's version and no put of the chunk
        acknowledged in between, a successful get returns the last acknowledged put. It fails
        only when the metadata could not be had, the chunk is unknown, or every reachable
        replica with an address was too old in every pass. */
    method Get(id: string, min: nat, reached: bool, meta: State, world: nat -> nat -> State, up: nat -> nat -> bool,
               ghost nodes: seq<NodeEntry>, ghost before: seq<Step>, ghost during: (nat, nat) -> seq<Step>)
      returns (r: Option<(nat, string)>)
      requires Run(Initial(nodes), before) && meta == EndOf(Initial(nodes), before)
      requires forall a, i :: Run(meta, during(a, i)) && world(a)(i) == EndOf(meta, during(a, i))
      modifies this
      ensures r.Some? ==> reached && id in meta.table
      ensures r.Some? ==> min <= r.value.0 && (min == 0 ==> meta.table[id].version <= r.value.0)
      ensures r.Some? ==> var e := meta.table[id];
        var list, floor := e.replicaSet + e.oldReplicaSet, if min == 0 then e.version else min;
        exists a, i :: AnsweredIn(stubs, list, meta.alive, id, floor, world, up, a, i, r.value)
      ensures r.Some? && (min == 0 || meta.table[id].version <= min)
              && (forall a, i :: LastPut(meta, during(a, i), id).None?) ==>
        r == LastPut(Initial(nodes), before, id)
      ensures r.None? && reached && id in meta.table ==> var e := meta.table[id];
        var list, floor := e.replicaSet + e.oldReplicaSet, if min == 0 then e.version else min;
        forall a: nat :: a < 60 ==> Refused(stubs, list, meta.alive, id, floor, world(a), up(a), |list|)
    {
      if !reached || id !in meta.table {
        return None;
      }
      var e := meta.table[id];
      var list := TryList(e, meta);
      ghost var entries := e.replicaSet + e.oldReplicaSet;
      assert list == ReportedAll(entries, meta);
      ghost var a, i;
      r, a, i := TryPasses(list, id, Target(min, e.version), world, up, entries, meta);
      if r.Some? {
        ReadSafety(nodes, before, during(a, i), id, min, stubs[NodeIdOf(entries[i])], r.value.0, r.value.1);
      }
    }

    /** Up to sixty passes, the last of them in vain. */
    method TryPasses(list: seq<string>, id: string, floor: nat, world: nat -> nat -> State, up: nat -> nat -> bool,
                     ghost entries: seq<string>, ghost meta: State)
      returns (r: Option<(nat, string)>, ghost a: nat, ghost i: nat)
      requires list == ReportedAll(entries, meta)
      modifies this
      ensures r.Some? ==> AnsweredIn(stubs, entries, meta.alive, id, floor, world, up, a, i, r.value)
      ensures r.None? ==> forall b: nat :: b < 60 ==> Refused(stubs, entries, meta.alive, id, floor, world(b), up(b), |entries|)
    {
      a, i := 0, 0;
      for attempt := 0 to ATTEMPTS
        invariant forall b: nat :: b < attempt ==> Refused(stubs, entries, meta.alive, id, floor, world(b), up(b), |entries|)
      {
        ghost var stubs0 := stubs;
        r := TryAll(list, id, floor, world(attempt), up(attempt), entries, meta);
        if r.Some? {
          a := attempt;
          i :| 0 <= i < |entries| && FirstAnswer(stubs, entries, meta.alive, id, floor, world(a), up(a), i, r.value);
          return;
        }
        forall b: nat | b < attempt ensures Refused(stubs, entries, meta.alive, id, floor, world(b), up(b), |entries|) {
          RefusedStays(stubs0, stubs, entries, meta.alive, id, floor, world(b), up(b), |entries|);
        }
      }
      r := None;
    }
  }

  /** In pass a the i-th replica is the first to answer. */
  ghost predicate AnsweredIn(stubs: map<string, string>, entries: seq<string>, nodes: seq<NodeEntry>, id: string, floor: nat,
                             world: nat -> nat -> State, up: nat -> nat -> bool, a: nat, i: nat, r: (nat, string)) {
    a < 60 && i < |entries| && FirstAnswer(stubs, entries, nodes, id, floor, world(a), up(a), i, r)
  }

  /** In one pass, each of the first n replicas that could be reached and has a known address was
      too old, at the address its connection was opened to. */
  ghost predicate Refused(stubs: map<string, string>, entries: seq<string>, nodes: seq<NodeEntry>, id: string, floor: nat,
                          world: nat -> State, up: nat -> bool, n: nat)
    requires n <= |entries|
  {
    forall i :: 0 <= i < n && up(i) && ResolveAddress(entries[i], nodes) != "" ==>
      NodeIdOf(entries[i]) in stubs && TooOld(world(i).stores, stubs[NodeIdOf(entries[i])], id, floor)
  }

  /** The i-th replica answers and all before it refused. */
  ghost predicate FirstAnswer(stubs: map<string, string>, entries: seq<string>, nodes: seq<NodeEntry>, id: string, floor: nat,
                              world: nat -> State, up: nat -> bool, i: nat, r: (nat, string))
    requires i < |entries|
  {
    && Refused(stubs, entries, nodes, id, floor, world, up, i) && up(i)
    && AnsweredBy(stubs, entries[i], world(i).stores, id, floor, r)
  }

  lemma RefusedStays(before: map<string, string>, after: map<string, string>, entries: seq<string>, nodes: seq<NodeEntry>,
                     id: string, floor: nat, world: nat -> State, up: nat -> bool, n: nat)
    requires n <= |entries| && Refused(before, entries, nodes, id, floor, world, up, n)
    requires forall k <- before :: k in after && after[k] == before[k]
    ensures Refused(after, entries, nodes, id, floor, world, up, n)
  {}

  /** So when an old replica answers, every current one that could be reached and has a known
      address had refused in that pass. */
  lemma OldReplicaIsFallback(stubs: map<string, string>, current: seq<string>, former: seq<string>, nodes: seq<NodeEntry>,
                             id: string, floor: nat, world: nat -> State, up: nat -> bool, i: nat, r: (nat, string))
    requires i < |former| && FirstAnswer(stubs, current + former, nodes, id, floor, world, up, |current| + i, r)
    ensures Refused(stubs, current, nodes, id, floor, world, up, |current|)
    ensures AnsweredBy(stubs, former[i], world(|current| + i).stores, id, floor, r)
  {
    forall k | 0 <= k < |current| && up(k) && ResolveAddress(current[k], nodes) != ""
      ensures NodeIdOf(current[k]) in stubs && TooOld(world(k).stores, stubs[NodeIdOf(current[k])], id, floor)
    {
      assert (current + former)[k] == current[k];
    }
  }

  /** And a get that fails had asked the old replicas too: they refused in every pass. */
  lemma OldReplicasWereAsked(stubs: map<string, string>, current: seq<string>, former: seq<string>, nodes: seq<NodeEntry>,
                             id: string, floor: nat, world: nat -> State, up: nat -> bool)
    requires Refused(stubs, current + former, nodes, id, floor, world, up, |current| + |former|)
    ensures Refused(stubs, current, nodes, id, floor, world, up, |current|)
    ensures forall j :: 0 <= j < |former| && up(|current| + j) && ResolveAddress(former[j], nodes) != "" ==>
      NodeIdOf(former[j]) in stubs && TooOld(world(|current| + j).stores, stubs[NodeIdOf(former[j])], id, floor)
  {
    forall k | 0 <= k < |current| && up(k) && ResolveAddress(current[k], nodes) != ""
      ensures NodeIdOf(current[k]) in stubs && TooOld(world(k).stores, stubs[NodeIdOf(current[k])], id, floor)
    {
      assert (current + former)[k] == current[k];
    }
    forall j | 0 <= j < |former| && up(|current| + j) && ResolveAddress(former[j], nodes) != ""
      ensures NodeIdOf(former[j]) in stubs && TooOld(world(|current| + j).stores, stubs[NodeIdOf(former[j])], id, floor)
    {
      assert (current + former)[|current| + j] == former[j];
    }
  }
}
