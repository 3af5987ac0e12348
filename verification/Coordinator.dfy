/** The metadata state machine: the chunk table every node folds committed log entries
    into (src/meta/meta_coordinator.cpp). */
module Coordinator {
  import opened Text
  import opened Sets

  datatype ConfigState = Stable | Transitioning

  datatype ChunkEntry = ChunkEntry(
    chunkId: string, version: nat, replicaSet: seq<string>, replicationFactor: int,
    configState: ConfigState, oldReplicaSet: seq<string>, sizeBytes: nat)

  datatype NodeEntry = NodeEntry(
    nodeId: string, address: string, loadFraction: real, freeBytes: nat, totalBytes: nat,
    failureRate: real, lastSeenMs: nat, alive: bool)

  type Table = map<string, ChunkEntry>

  /** What a log entry does to the chunk table; heartbeats and policy updates leave it alone. */
  datatype Command =
    | PutChunk(id: string, sizeBytes: nat, rf: int, replicas: seq<string>, version: nat)
    | DeleteChunk(id: string)
    | ReconfigStart(id: string, oldSet: seq<string>, newSet: seq<string>)
    | ReconfigCommit(id: string, newSet: seq<string>)
    | NoChunkEffect

  function Apply(t: Table, c: Command): Table {
    match c
    case PutChunk(id, size, rf, replicas, version) =>
      t[id := ChunkEntry(id, version, replicas, rf, Stable, [], size)]
    case DeleteChunk(id) => t - {id}
    case ReconfigStart(id, oldSet, newSet) =>
      if id !in t then t
      else t[id := t[id].(configState := Transitioning, replicationFactor := |newSet|,
                          oldReplicaSet := oldSet, replicaSet := newSet)]
    case ReconfigCommit(id, newSet) =>
      if id !in t then t
      else t[id := t[id].(configState := Stable, replicationFactor := |newSet|,
                          oldReplicaSet := [], replicaSet := newSet)]
    case NoChunkEffect => t
  }

  function ApplyAll(t: Table, log: seq<Command>): Table {
    if log == [] then t else Apply(ApplyAll(t, log[..|log| - 1]), log[|log| - 1])
  }

  lemma {:induction false} ApplyAllConcat(t: Table, a: seq<Command>, b: seq<Command>)
    ensures ApplyAll(t, a + b) == ApplyAll(ApplyAll(t, a), b)
  {
    if b == [] {
      assert a + b == a;
    } else {
      assert (a + b)[..|a + b| - 1] == a + b[..|b| - 1];
      ApplyAllConcat(t, a, b[..|b| - 1]);
    }
  }

  // ---------------------------------------------------------------- what a log does to one chunk

  /** The net effect of a log on one chunk: nothing, a fixed outcome, or new placement fields. */
  datatype Effect =
    | Keep
    | Fix(entry: Option<ChunkEntry>)
    | Place(state: ConfigState, oldSet: seq<string>, newSet: seq<string>)

  function EffectOn(c: Command, id: string): Effect {
    if c.NoChunkEffect? || c.id != id then Keep
    else match c
      case PutChunk(_, size, rf, replicas, version) =>
        Fix(Some(ChunkEntry(id, version, replicas, rf, Stable, [], size)))
      case DeleteChunk(_) => Fix(None)
      case ReconfigStart(_, oldSet, newSet) => Place(Transitioning, oldSet, newSet)
      case ReconfigCommit(_, newSet) => Place(Stable, [], newSet)
  }

  function Act(f: Effect, e: Option<ChunkEntry>): Option<ChunkEntry> {
    match f
    case Keep => e
    case Fix(entry) => entry
    case Place(state, oldSet, newSet) =>
      if e.None? then None
      else Some(e.value.(configState := state, replicationFactor := |newSet|,
                         oldReplicaSet := oldSet, replicaSet := newSet))
  }

  function Then(f: Effect, g: Effect): Effect {
    match g
    case Keep => f
    case Fix(_) => g
    case Place(_, _, _) => if f.Fix? then Fix(Act(g, f.entry)) else g
  }

  function Summary(log: seq<Command>, id: string): Effect {
    if log == [] then Keep else Then(Summary(log[..|log| - 1], id), EffectOn(log[|log| - 1], id))
  }

  function Lookup(t: Table, id: string): Option<ChunkEntry> {
    if id in t then Some(t[id]) else None
  }

  lemma {:induction false} SummaryActs(t: Table, log: seq<Command>, id: string)
    ensures Lookup(ApplyAll(t, log), id) == Act(Summary(log, id), Lookup(t, id))
  {
    if log != [] {
      SummaryActs(t, log[..|log| - 1], id);
    }
  }

  lemma {:induction false} SummaryConcat(a: seq<Command>, b: seq<Command>, id: string)
    ensures Summary(a + b, id) == Then(Summary(a, id), Summary(b, id))
  {
    if b == [] {
      assert a + b == a;
    } else {
      assert (a + b)[..|a + b| - 1] == a + b[..|b| - 1];
      SummaryConcat(a, b[..|b| - 1], id);
    }
  }

  lemma SameLookups(t: Table, u: Table)
    requires forall id :: Lookup(t, id) == Lookup(u, id)
    ensures t == u
  {
    forall id | id in t.Keys + u.Keys ensures id in t && id in u && t[id] == u[id] {
      assert Lookup(t, id) == Lookup(u, id);
    }
    assert t.Keys == u.Keys;
  }

  // ---------------------------------------------------------------- replay converges

  /** A table from which finishing the log gives the log's own table still does so after
      rewinding: replaying from any earlier entry reaches that table as well. */
  lemma Rewind(log: seq<Command>, t: Table, at: nat, from: nat)
    requires from <= at <= |log|
    requires ApplyAll(t, log[at..]) == ApplyAll(map[], log)
    ensures ApplyAll(t, log[from..]) == ApplyAll(map[], log)
  {
    var u, v := log[from..at], log[at..];
    assert log[from..] == u + v && log == log[..from] + log[from..];
    forall id ensures Lookup(ApplyAll(t, log[from..]), id) == Lookup(ApplyAll(map[], log), id) {
      SummaryActs(t, v, id);
      SummaryActs(t, log[from..], id);
      SummaryConcat(u, v, id);
      ApplyAllConcat(map[], log[..from], log[from..]);
      SummaryActs(ApplyAll(map[], log[..from]), log[from..], id);
      SummaryActs(ApplyAll(map[], log[..from]), u, id);
    }
    SameLookups(ApplyAll(t, log[from..]), ApplyAll(map[], log));
  }

  /** Overlapping replay: applying the entries after position k to the table of any longer
      prefix gives the table of the whole log, so a snapshot newer than its log position, a
      re-delivered suffix and a full replay over a snapshot all converge. */
  lemma OverlappingReplay(log: seq<Command>, k: nat, j: nat)
    requires k <= j <= |log|
    ensures ApplyAll(ApplyAll(map[], log[..j]), log[k..]) == ApplyAll(map[], log)
  {
    assert log == log[..j] + log[j..];
    ApplyAllConcat(map[], log[..j], log[j..]);
    Rewind(log, ApplyAll(map[], log[..j]), j, k);
  }

  /** Applies the log entries at the given positions, in the given order. */
  function ApplyVisits(t: Table, log: seq<Command>, visits: seq<nat>): Table
    requires forall k :: 0 <= k < |visits| ==> visits[k] < |log|
    decreases |visits|
  {
    if visits == [] then t else ApplyVisits(Apply(t, log[visits[0]]), log, visits[1..])
  }

  /** An order of visits that never skips ahead: it may return to any earlier entry at any
      time, but moves on by at most one, and ends at the end of the log. */
  ghost predicate Crawls(next: nat, visits: seq<nat>, end: nat) {
    && (visits != [] ==> visits[0] <= next)
    && (forall k :: 0 <= k < |visits| - 1 ==> visits[k + 1] <= visits[k] + 1)
    && (forall k :: 0 <= k < |visits| ==> visits[k] < end)
    && end == if visits == [] then next else visits[|visits| - 1] + 1
  }

  lemma {:induction false} CrawlFrom(log: seq<Command>, t: Table, next: nat, visits: seq<nat>)
    requires next <= |log| && Crawls(next, visits, |log|)
    requires ApplyAll(t, log[next..]) == ApplyAll(map[], log)
    ensures ApplyVisits(t, log, visits) == ApplyAll(map[], log)
    decreases |visits|
  {
    if visits == [] {
      assert log[next..] == [];
    } else {
      var i := visits[0];
      Rewind(log, t, next, i);
      assert log[i..] == [log[i]] + log[i + 1..];
      ApplyAllConcat(t, [log[i]], log[i + 1..]);
      assert [log[i]][..0] == [];
      assert ApplyAll(t, [log[i]]) == Apply(ApplyAll(t, []), log[i]);
      CrawlFrom(log, Apply(t, log[i]), i + 1, visits[1..]);
    }
  }

  /** Every crawl over the log, with any number of returns and repetitions, ends in the
      table of the log. */
  lemma CrawlConverges(log: seq<Command>, visits: seq<nat>)
    requires Crawls(0, visits, |log|)
    ensures ApplyVisits(map[], log, visits) == ApplyAll(map[], log)
  {
    assert log[0..] == log;
    CrawlFrom(log, map[], 0, visits);
  }

  /** Skipping ahead is what a crawl must not do: after any log, a put and a delete of one chunk
      applied the wrong way round leave the chunk standing. */
  lemma SkippingAheadDiverges(log: seq<Command>, id: string, size: nat, rf: int, replicas: seq<string>, version: nat)
    ensures var put, delete := PutChunk(id, size, rf, replicas, version), DeleteChunk(id);
      id in ApplyAll(map[], log + [delete] + [put]) && id !in ApplyAll(map[], log + [put] + [delete])
  {
    var put, delete := PutChunk(id, size, rf, replicas, version), DeleteChunk(id);
    var wrong, right := log + [delete] + [put], log + [put] + [delete];
    assert wrong[..|wrong| - 1] == log + [delete] && wrong[|wrong| - 1] == put;
    assert right[..|right| - 1] == log + [put] && right[|right| - 1] == delete;
  }

  // ---------------------------------------------------------------- the chunk invariant

  /** The node id of a replica entry `id=address`, or the whole entry without '='. */
  function NodeIdOf(entry: string): string {
    if entry == "" || entry[0] == '=' then "" else [entry[0]] + NodeIdOf(entry[1..])
  }

  function NodeIds(entries: seq<string>): (r: seq<string>)
    ensures |r| == |entries| && forall i :: 0 <= i < |entries| ==> r[i] == NodeIdOf(entries[i])
  {
    seq(|entries|, i requires 0 <= i < |entries| => NodeIdOf(entries[i]))
  }

  ghost predicate DistinctNodes(entries: seq<string>) {
    Distinct(NodeIds(entries))
  }

  ghost predicate WellFormed(id: string, e: ChunkEntry) {
    && e.chunkId == id
    && e.replicaSet != [] && DistinctNodes(e.replicaSet)
    && e.replicationFactor == |e.replicaSet|
    && (e.configState.Stable? <==> e.oldReplicaSet == [])
  }

  ghost predicate TableWellFormed(t: Table) {
    forall id <- t :: WellFormed(id, t[id])
  }

  /** The shape of every entry a leader writes. */
  ghost predicate LeaderWritten(c: Command) {
    match c
    case PutChunk(_, _, rf, replicas, _) => replicas != [] && DistinctNodes(replicas) && rf == |replicas|
    case ReconfigStart(_, oldSet, newSet) => oldSet != [] && newSet != [] && DistinctNodes(newSet)
    case ReconfigCommit(_, newSet) => newSet != [] && DistinctNodes(newSet)
    case _ => true
  }

  /** Entries of that shape keep every table well formed, in any order and number. */
  lemma {:induction false} LeaderEntriesKeepTable(t: Table, log: seq<Command>)
    requires TableWellFormed(t) && forall c <- log :: LeaderWritten(c)
    ensures TableWellFormed(ApplyAll(t, log))
  {
    if log != [] {
      LeaderEntriesKeepTable(t, log[..|log| - 1]);
      assert LeaderWritten(log[|log| - 1]);
    }
  }

  // ---------------------------------------------------------------- the coordinator

  /** The table a list of snapshot entries restores; the last entry of an id wins. */
  function Restored(chunks: seq<ChunkEntry>): Table {
    if chunks == [] then map[]
    else
      var c := chunks[|chunks| - 1];
      Restored(chunks[..|chunks| - 1])[c.chunkId := c]
  }

  function RestoredNodes(nodes: seq<NodeEntry>): map<string, NodeEntry> {
    if nodes == [] then map[]
    else
      var n := nodes[|nodes| - 1];
      RestoredNodes(nodes[..|nodes| - 1])[n.nodeId := n]
  }

  /** A node is evicted when the unsigned 64-bit age of its last heartbeat exceeds the timeout. */
  predicate Evicts(n: NodeEntry, now: nat, timeout: nat) {
    n.alive && (now as int - n.lastSeenMs) % U64 > timeout
  }

  /** On a clock that does not step back, an alive node is evicted exactly when it was last
      heard of longer ago than the timeout. */
  lemma EvictsByAge(n: NodeEntry, now: nat, timeout: nat)
    requires n.lastSeenMs <= now < U64
    ensures Evicts(n, now, timeout) <==> n.alive && n.lastSeenMs + timeout < now
  {
    assert (now as int - n.lastSeenMs) % U64 == now - n.lastSeenMs;
  }

  /** A node heard of after `now` counts as ancient: the age wraps around. */
  lemma FutureHeartbeatEvicts(n: NodeEntry, now: nat, timeout: nat)
    requires n.alive && now < n.lastSeenMs < U64
    ensures Evicts(n, now, timeout) <==> n.lastSeenMs - now < U64 - timeout
  {
    WrapOnce(now as int - n.lastSeenMs);
  }

  lemma WrapOnce(d: int)
    requires -(U64 as int) < d < 0
    ensures d % U64 == d + U64
  {}

  class MetaCoordinator {
    var chunkTable: Table
    var nodeTable: map<string, NodeEntry>

    constructor ()
      ensures chunkTable == map[] && nodeTable == map[]
    {
      chunkTable, nodeTable := map[], map[];
    }

    method ApplyPutChunk(id: string, sizeBytes: nat, rf: int, replicas: seq<string>, version: nat)
      modifies this`chunkTable
      ensures chunkTable == Apply(old(chunkTable), PutChunk(id, sizeBytes, rf, replicas, version))
    {
      var e := if id in chunkTable then chunkTable[id] else ChunkEntry("", 0, [], 3, Stable, [], 0);
      e := e.(chunkId := id, version := version, sizeBytes := sizeBytes, replicationFactor := rf);
      e := e.(replicaSet := replicas, configState := Stable, oldReplicaSet := []);
      chunkTable := chunkTable[id := e];
    }

    method ApplyDeleteChunk(id: string)
      modifies this`chunkTable
      ensures chunkTable == Apply(old(chunkTable), DeleteChunk(id))
    {
      chunkTable := chunkTable - {id};
    }

    method ApplyReconfigStart(id: string, oldSet: seq<string>, newSet: seq<string>)
      modifies this`chunkTable
      ensures chunkTable == Apply(old(chunkTable), ReconfigStart(id, oldSet, newSet))
    {
      if id in chunkTable {
        var e := chunkTable[id].(configState := Transitioning, replicationFactor := |newSet|);
        chunkTable := chunkTable[id := e.(oldReplicaSet := oldSet, replicaSet := newSet)];
      }
    }

    method ApplyReconfigCommit(id: string, newSet: seq<string>)
      modifies this`chunkTable
      ensures chunkTable == Apply(old(chunkTable), ReconfigCommit(id, newSet))
    {
      if id in chunkTable {
        var e := chunkTable[id].(configState := Stable, replicationFactor := |newSet|);
        chunkTable := chunkTable[id := e.(replicaSet := newSet, oldReplicaSet := [])];
      }
    }

    method ApplyHeartbeat(id: string, address: string, load: real, free: nat, total: nat, failRate: real, now: nat)
      modifies this`nodeTable
      ensures nodeTable == old(nodeTable)[id := NodeEntry(id, address, load, free, total, failRate, now, true)]
    {
      nodeTable := nodeTable[id := NodeEntry(id, address, load, free, total, failRate, now, true)];
    }

    method RestoreSnapshot(nodes: seq<NodeEntry>, chunks: seq<ChunkEntry>)
      modifies this
      ensures chunkTable == Restored(chunks) && nodeTable == RestoredNodes(nodes)
    {
      nodeTable := map[];
      for i := 0 to |nodes|
        invariant nodeTable == RestoredNodes(nodes[..i])
      {
        assert nodes[..i + 1][..i] == nodes[..i];
        nodeTable := nodeTable[nodes[i].nodeId := nodes[i]];
      }
      assert nodes[..|nodes|] == nodes;
      chunkTable := map[];
      for i := 0 to |chunks|
        invariant chunkTable == Restored(chunks[..i])
        invariant nodeTable == RestoredNodes(nodes)
      {
        assert chunks[..i + 1][..i] == chunks[..i];
        chunkTable := chunkTable[chunks[i].chunkId := chunks[i]];
      }
      assert chunks[..|chunks|] == chunks;
    }

    method EvictStaleNodes(now: nat, timeout: nat)
      modifies this`nodeTable
      ensures nodeTable.Keys == old(nodeTable).Keys
      ensures forall id <- nodeTable ::
        nodeTable[id] == if Evicts(old(nodeTable)[id], now, timeout) then old(nodeTable)[id].(alive := false)
                         else old(nodeTable)[id]
    {
      var left := nodeTable.Keys;
      while left != {}
        invariant left <= nodeTable.Keys == old(nodeTable).Keys
        invariant forall id <- left :: nodeTable[id] == old(nodeTable)[id]
        invariant forall id <- nodeTable.Keys - left ::
          nodeTable[id] == if Evicts(old(nodeTable)[id], now, timeout) then old(nodeTable)[id].(alive := false)
                           else old(nodeTable)[id]
      {
        var id :| id in left;
        left := left - {id};
        if Evicts(nodeTable[id], now, timeout) {
          nodeTable := nodeTable[id := nodeTable[id].(alive := false)];
        }
      }
    }
  }
}
