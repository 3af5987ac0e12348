/** Chunks in a whole cluster: puts, reconfigurations, repairs and reads as steps of one
    state machine (src/meta/meta_rpc.cpp, src/meta/reconfig_driver.cpp,
    src/storage/replica_repair.cpp). A remote call either takes effect or does nothing. */
module Cluster {
  import opened Text
  import opened Coordinator
  import opened Placement
  import opened Planner
  import opened Payload
  import opened ChunkStore

  // ---------------------------------------------------------------- the storage nodes

  /** What every storage node holds, by address. */
  type Stores = map<string, Model>

  function At(stores: Stores, addr: string): Model {
    if addr in stores then stores[addr] else map[]
  }

  function Written(stores: Stores, addr: string, id: string, v: nat, data: string): Stores {
    stores[addr := At(stores, addr)[(id, v) := data]]
  }

  function Dropped(stores: Stores, addr: string, id: string): Stores {
    stores[addr := Without(At(stores, addr), id)]
  }

  /** The node at `addr` answers a read with this version and these bytes. */
  ghost predicate Serves(stores: Stores, addr: string, id: string, min: nat, v: nat, data: string) {
    IsLatest(At(stores, addr), id, v) && min <= v && At(stores, addr)[(id, v)] == data
  }

  ghost predicate Holds(stores: Stores, addr: string, id: string, v: nat, data: string) {
    (id, v) in At(stores, addr) && At(stores, addr)[(id, v)] == data
  }

  ghost predicate UpToDate(stores: Stores, addr: string, id: string, version: nat) {
    exists v :: version <= v && (id, v) in At(stores, addr)
  }

  /** The targets that acknowledged a write. */
  function Took(addrs: seq<string>, wrote: seq<bool>): seq<string>
    requires |addrs| == |wrote|
  {
    if addrs == [] then []
    else
      var n := |addrs| - 1;
      Took(addrs[..n], wrote[..n]) + if wrote[n] then [addrs[n]] else []
  }

  function WriteAll(stores: Stores, addrs: seq<string>, id: string, v: nat, data: string): Stores {
    if addrs == [] then stores
    else Written(WriteAll(stores, addrs[..|addrs| - 1], id, v, data), addrs[|addrs| - 1], id, v, data)
  }

  function DropAll(stores: Stores, addrs: seq<string>, id: string): Stores {
    if addrs == [] then stores
    else Dropped(DropAll(stores, addrs[..|addrs| - 1], id), addrs[|addrs| - 1], id)
  }

  lemma {:induction false} WriteAllReaches(stores: Stores, addrs: seq<string>, id: string, v: nat, data: string)
    ensures forall a <- addrs :: Holds(WriteAll(stores, addrs, id, v, data), a, id, v, data)
  {
    if addrs != [] {
      var init := addrs[..|addrs| - 1];
      WriteAllReaches(stores, init, id, v, data);
      forall a | a in addrs ensures Holds(WriteAll(stores, addrs, id, v, data), a, id, v, data) {
        assert a in init || a == addrs[|addrs| - 1];
      }
    }
  }

  lemma {:induction false} WriteAllSpares(stores: Stores, addrs: seq<string>, id: string, v: nat, data: string, addr: string)
    requires addr !in addrs
    ensures At(WriteAll(stores, addrs, id, v, data), addr) == At(stores, addr)
  {
    if addrs != [] {
      WriteAllSpares(stores, addrs[..|addrs| - 1], id, v, data, addr);
    }
  }

  // ---------------------------------------------------------------- the state

  /** A reconfiguration at work: copying to the next new replica, perhaps with the bytes
      already fetched, or asking the next one for its version. */
  datatype Phase = Copying(next: nat, fetched: Option<string>) | Verifying(next: nat)

  datatype Job = Job(version: nat, oldSet: seq<string>, newSet: seq<string>, nodes: seq<NodeEntry>, phase: Phase)

  datatype Copy = Copy(id: string, version: nat, data: string)

  /** What has happened, in order: entries committed to the log with a quorum, and the
      versions new replicas answered with. Entries written to the log are recorded apart,
      whether or not their quorum was reached in time. */
  datatype Event = Logged(command: Command) | Answered(id: string, replica: string, version: nat)

  datatype State = State(
    alive: seq<NodeEntry>, table: Table, stores: Stores, jobs: map<string, Job>,
    repairs: set<Copy>, history: seq<Event>, puts: Model, written: seq<Command>)

  /** Who asks for a reconfiguration. */
  datatype Caller = Policy(rf: int) | Add(node: string) | Remove(node: string)

  datatype Demand = Demand(newRf: int, added: string, removed: string)

  predicate HasReplica(e: ChunkEntry, node: string) {
    node in NodeIds(e.replicaSet)
  }

  /** What the caller asks of the planner, unless it is refused before that. */
  function DemandOf(caller: Caller, e: ChunkEntry): Option<Demand> {
    match caller
    case Policy(rf) => if rf > 0 then Some(Demand(rf, "", "")) else None
    case Add(node) =>
      if node == "" || HasReplica(e, node) then None else Some(Demand(|e.replicaSet| + 1, node, ""))
    case Remove(node) =>
      if |e.replicaSet| <= 1 || node == "" || !HasReplica(e, node) then None
      else Some(Demand(|e.replicaSet| - 1, "", node))
  }

  function NextVersion(t: Table, id: string): nat {
    if id in t then t[id].version + 1 else 1
  }

  function Addresses(entries: seq<string>, nodes: seq<NodeEntry>): (r: seq<string>)
    ensures |r| == |entries|
  {
    seq(|entries|, i requires 0 <= i < |entries| => ResolveAddress(entries[i], nodes))
  }

  /** The first old replica with a known address. */
  function SourceOf(oldSet: seq<string>, nodes: seq<NodeEntry>): string {
    if oldSet == [] then ""
    else if ResolveAddress(oldSet[0], nodes) != "" then ResolveAddress(oldSet[0], nodes)
    else SourceOf(oldSet[1..], nodes)
  }

  ghost predicate FirstWithAddress(oldSet: seq<string>, nodes: seq<NodeEntry>, i: nat) {
    && i < |oldSet| && ResolveAddress(oldSet[i], nodes) != ""
    && forall k :: 0 <= k < i ==> ResolveAddress(oldSet[k], nodes) == ""
  }

  /** It is the address of the first old entry that has one. */
  lemma {:induction false} SourceIsFirst(oldSet: seq<string>, nodes: seq<NodeEntry>)
    ensures SourceOf(oldSet, nodes) == "" ==> forall i :: 0 <= i < |oldSet| ==> ResolveAddress(oldSet[i], nodes) == ""
    ensures SourceOf(oldSet, nodes) != "" ==>
      exists i: nat :: FirstWithAddress(oldSet, nodes, i) && SourceOf(oldSet, nodes) == ResolveAddress(oldSet[i], nodes)
  {
    if oldSet != [] && ResolveAddress(oldSet[0], nodes) == "" {
      var rest := oldSet[1..];
      SourceIsFirst(rest, nodes);
      if SourceOf(rest, nodes) != "" {
        var i: nat :| FirstWithAddress(rest, nodes, i) && SourceOf(rest, nodes) == ResolveAddress(rest[i], nodes);
        NextWithAddress(oldSet, nodes, i);
      } else {
        forall k | 0 <= k < |oldSet| ensures ResolveAddress(oldSet[k], nodes) == "" {
          assert k > 0 ==> oldSet[k] == rest[k - 1];
        }
      }
    } else if oldSet != [] {
      assert FirstWithAddress(oldSet, nodes, 0);
    }
  }

  lemma NextWithAddress(oldSet: seq<string>, nodes: seq<NodeEntry>, i: nat)
    requires oldSet != [] && ResolveAddress(oldSet[0], nodes) == "" && FirstWithAddress(oldSet[1..], nodes, i)
    ensures FirstWithAddress(oldSet, nodes, i + 1) && oldSet[i + 1] == oldSet[1..][i]
  {
    forall k | 0 <= k < i + 1 ensures ResolveAddress(oldSet[k], nodes) == "" {
      assert k > 0 ==> oldSet[k] == oldSet[1..][k - 1];
    }
  }

  /** Node names as the formats need them: not empty and free of separators. */
  ghost predicate NodesOk(nodes: seq<NodeEntry>) {
    DistinctIds(nodes) && forall i :: 0 <= i < |nodes| ==> NameOk(nodes[i].nodeId) && ListFree(nodes[i].address)
  }

  ghost predicate ListFree(s: string) {
    Free(s, ',') && Free(s, '|')
  }

  ghost predicate NameOk(id: string) {
    id != "" && Free(id, '=') && ListFree(id)
  }

  // ---------------------------------------------------------------- the steps

  datatype Step =
    | Put(id: string, size: nat, rf: int, data: string, chosen: seq<string>, wrote: seq<bool>, quorum: bool)
    | Start(id: string, caller: Caller, plan: seq<string>, quorum: bool)
    | Skip(id: string)
    | Fetch(id: string, v: nat, data: string)
    | Store(id: string)
    | BeginVerify(id: string)
    | Answer(id: string, v: nat, data: string)
    | Commit(id: string, quorum: bool)
    | Abort(id: string)
    | RepairFetch(peer: string, id: string, v: nat, data: string)
    | RepairWrite(addr: string, copy: Copy)
    | Drop(addr: string, id: string)
    | ChangeNodes(nodes: seq<NodeEntry>)

  function PutCommand(s: State, p: Step): Command
    requires p.Put?
  {
    Command.PutChunk(p.id, p.size, p.rf, EncodeTargets(p.chosen, s.alive), NextVersion(s.table, p.id))
  }

  function Acked(s: State, p: Step): seq<string>
    requires p.Put? && |p.chosen| == |p.wrote|
  {
    Took(Addresses(EncodeTargets(p.chosen, s.alive), s.alive), p.wrote)
  }

  predicate MajorityTook(s: State, p: Step)
    requires p.Put? && |p.chosen| == |p.wrote|
  {
    |Acked(s, p)| >= |p.chosen| / 2 + 1
  }

  predicate PutSucceeds(s: State, p: Step)
    requires p.Put? && |p.chosen| == |p.wrote|
  {
    MajorityTook(s, p) && p.quorum
  }

  /** An id that no known id is nested in and that is nested in no known one. */
  ghost predicate StandsApart(t: Table, id: string) {
    forall other <- t :: !Nested(other, id) && !Nested(id, other)
  }

  /** Puts as the formats of the log and of the storage nodes can carry them. */
  ghost predicate PutEnabled(s: State, p: Step)
    requires p.Put?
  {
    && ValidId(p.id) && p.size < U64 && IsInt32(p.rf) && Representable((p.id, NextVersion(s.table, p.id)))
    && StandsApart(s.table, p.id)
    && (p.id in s.table ==> s.table[p.id].configState.Stable?)
    && Selection(p.rf, s.alive, {}, p.chosen) && |p.chosen| >= p.rf
    && |p.wrote| == |p.chosen|
  }

  /** Without a storage majority nothing is logged; without the metadata quorum the entry stays
      in the log uncommitted. Either way the written replicas are cleared again. */
  function AfterPut(s: State, p: Step): State
    requires p.Put? && |p.chosen| == |p.wrote|
  {
    var v, acked, c := NextVersion(s.table, p.id), Acked(s, p), PutCommand(s, p);
    var stores := WriteAll(s.stores, acked, p.id, v, p.data);
    if !PutSucceeds(s, p) then
      s.(stores := DropAll(stores, acked, p.id), written := s.written + if MajorityTook(s, p) then [c] else [])
    else
      s.(stores := stores, puts := s.puts[(p.id, v) := p.data], table := Apply(s.table, c),
         history := s.history + [Logged(c)], written := s.written + [c])
  }

  ghost predicate StartEnabled(s: State, id: string, caller: Caller, plan: seq<string>) {
    && id in s.table && s.table[id].configState.Stable?
    && var d := DemandOf(caller, s.table[id]);
       d.Some? && d.value.newRf >= 0 && Planned(
         NodeIds(s.table[id].replicaSet), d.value.newRf, d.value.added, d.value.removed, s.alive, plan)
  }

  function StartCommand(s: State, id: string, plan: seq<string>): Command
    requires id in s.table
  {
    ReconfigStart(id, s.table[id].replicaSet, EncodeTargets(plan, s.alive))
  }

  function AfterStart(s: State, id: string, plan: seq<string>, quorum: bool): State
    requires id in s.table
  {
    var e, c := s.table[id], StartCommand(s, id, plan);
    if !quorum then s.(written := s.written + [c])
    else
      s.(table := Apply(s.table, c), history := s.history + [Logged(c)], written := s.written + [c],
         jobs := s.jobs[id := Job(e.version, e.replicaSet, c.newSet, s.alive, Copying(0, None))])
  }

  /** The job's own steps, seen from its phase. */
  ghost predicate JobEnabled(stores: Stores, job: Job, step: Step) {
    match step
    case Skip(id) =>
      && job.phase.Copying? && job.phase.fetched.None? && job.phase.next < |job.newSet|
      && NodeIdOf(job.newSet[job.phase.next]) in NodeIds(job.oldSet)
    case Fetch(id, v, data) =>
      && job.phase.Copying? && job.phase.fetched.None? && job.phase.next < |job.newSet|
      && NodeIdOf(job.newSet[job.phase.next]) !in NodeIds(job.oldSet)
      && SourceOf(job.oldSet, job.nodes) != "" && ResolveAddress(job.newSet[job.phase.next], job.nodes) != ""
      && Serves(stores, SourceOf(job.oldSet, job.nodes), id, job.version, v, data)
    case Store(id) =>
      job.phase.Copying? && job.phase.fetched.Some? && job.phase.next < |job.newSet|
    case BeginVerify(id) =>
      job.phase == Copying(|job.newSet|, None) || (job.phase == Copying(0, None) && job.oldSet == [])
    case Answer(id, v, data) =>
      && job.phase.Verifying? && job.phase.next < |job.newSet|
      && ResolveAddress(job.newSet[job.phase.next], job.nodes) != ""
      && Serves(stores, ResolveAddress(job.newSet[job.phase.next], job.nodes), id, job.version, v, data)
    case Commit(id, quorum) => job.phase == Verifying(|job.newSet|)
    case Abort(id) => true
    case _ => false
  }

  ghost predicate Enabled(s: State, step: Step) {
    match step
    case Put(_, _, _, _, _, _, _) => PutEnabled(s, step)
    case Start(id, caller, plan, _) => StartEnabled(s, id, caller, plan)
    case RepairFetch(peer, id, v, data) => Serves(s.stores, peer, id, 0, v, data)
    case RepairWrite(addr, copy) => copy in s.repairs
    case Drop(addr, id) => Clear(At(s.stores, addr), id)
    case ChangeNodes(nodes) => NodesOk(nodes)
    case _ => step.id in s.jobs && JobEnabled(s.stores, s.jobs[step.id], step)
  }

  function Moved(s: State, id: string, phase: Phase): State
    requires id in s.jobs
  {
    s.(jobs := s.jobs[id := s.jobs[id].(phase := phase)])
  }

  ghost function After(s: State, step: Step): State
    requires Enabled(s, step)
  {
    match step
    case Put(_, _, _, _, _, _, _) => AfterPut(s, step)
    case Start(id, _, plan, quorum) => AfterStart(s, id, plan, quorum)
    case Skip(id) => Moved(s, id, Copying(s.jobs[id].phase.next + 1, None))
    case Fetch(id, _, data) => Moved(s, id, Copying(s.jobs[id].phase.next, Some(data)))
    case Store(id) => AfterStore(s, id)
    case BeginVerify(id) =>
      s.(jobs := s.jobs[id := s.jobs[id].(nodes := s.alive, phase := Verifying(0))])
    case Answer(id, v, _) => AfterAnswer(s, id, v)
    case Commit(id, quorum) => AfterCommit(s, id, quorum)
    case Abort(id) => s.(jobs := s.jobs - {id})
    case RepairFetch(_, id, v, data) => s.(repairs := s.repairs + {Copy.Copy(id, v, data)})
    case RepairWrite(addr, c) => s.(stores := Written(s.stores, addr, c.id, c.version, c.data))
    case Drop(addr, id) => s.(stores := Dropped(s.stores, addr, id))
    case ChangeNodes(nodes) => s.(alive := nodes)
  }

  function ResolveDestination(job: Job): string
    requires job.phase.next < |job.newSet|
  {
    ResolveAddress(job.newSet[job.phase.next], job.nodes)
  }

  /** The destination takes the fetched bytes under the version the job was started with. */
  function AfterStore(s: State, id: string): State
    requires id in s.jobs
    requires s.jobs[id].phase.Copying? && s.jobs[id].phase.fetched.Some? && s.jobs[id].phase.next < |s.jobs[id].newSet|
  {
    var job := s.jobs[id];
    var addr := ResolveAddress(job.newSet[job.phase.next], job.nodes);
    Moved(s, id, Copying(job.phase.next + 1, None))
      .(stores := Written(s.stores, addr, id, job.version, job.phase.fetched.value))
  }

  function AfterAnswer(s: State, id: string, v: nat): State
    requires id in s.jobs && s.jobs[id].phase.Verifying? && s.jobs[id].phase.next < |s.jobs[id].newSet|
  {
    var job := s.jobs[id];
    Moved(s, id, Verifying(job.phase.next + 1))
      .(history := s.history + [Answered(id, job.newSet[job.phase.next], v)])
  }

  function AfterCommit(s: State, id: string, quorum: bool): State
    requires id in s.jobs
  {
    var c := ReconfigCommit(id, s.jobs[id].newSet);
    if !quorum then s.(jobs := s.jobs - {id}, written := s.written + [c])
    else
      s.(table := Apply(s.table, c), history := s.history + [Logged(c)], written := s.written + [c],
         jobs := s.jobs - {id})
  }

  ghost function Initial(nodes: seq<NodeEntry>): State {
    State(nodes, map[], map[], map[], {}, [], map[], [])
  }

  /** A run: every step is enabled where it is taken. */
  ghost predicate Run(s: State, steps: seq<Step>)
    decreases |steps|
  {
    steps == [] || (Enabled(s, steps[0]) && Run(After(s, steps[0]), steps[1..]))
  }

  ghost function EndOf(s: State, steps: seq<Step>): State
    requires Run(s, steps)
    decreases |steps|
  {
    if steps == [] then s else EndOf(After(s, steps[0]), steps[1..])
  }

  lemma {:induction false} RunSnoc(s: State, steps: seq<Step>, step: Step)
    requires Run(s, steps) && Enabled(EndOf(s, steps), step)
    ensures Run(s, steps + [step]) && EndOf(s, steps + [step]) == After(EndOf(s, steps), step)
    decreases |steps|
  {
    if steps == [] {
      assert steps + [step] == [step];
      assert Run(After(s, step), [step][1..]);
    } else {
      assert (steps + [step])[0] == steps[0] && (steps + [step])[1..] == steps[1..] + [step];
      RunSnoc(After(s, steps[0]), steps[1..], step);
    }
  }

  // ---------------------------------------------------------------- where bytes come from

  /** Every stored version is an acknowledged put with that put's bytes. */
  ghost predicate StoresHold(stores: Stores, puts: Model) {
    forall addr, k :: addr in stores && k in stores[addr] ==> k in puts && puts[k] == stores[addr][k]
  }

  ghost predicate RepairsHold(repairs: set<Copy>, puts: Model) {
    forall c <- repairs :: (c.id, c.version) in puts && puts[(c.id, c.version)] == c.data
  }

  /** The table knows exactly the chunks that were put, at their latest version. */
  ghost predicate Current(t: Table, puts: Model) {
    && (forall id <- t :: IsLatest(puts, id, t[id].version))
    && (forall k <- puts :: k.0 in t)
  }

  ghost predicate JobHolds(e: ChunkEntry, job: Job, id: string, puts: Model) {
    && e.configState.Transitioning? && e.version == job.version
    && e.oldReplicaSet == job.oldSet && e.replicaSet == job.newSet
    && (job.phase.Copying? && job.phase.fetched.Some? ==>
          (id, job.version) in puts && puts[(id, job.version)] == job.phase.fetched.value)
  }

  ghost predicate JobsHold(t: Table, jobs: map<string, Job>, puts: Model) {
    forall id <- jobs :: id in t && JobHolds(t[id], jobs[id], id, puts)
  }

  /** Known ids are not nested in each other and their versions fit the keys. */
  ghost predicate Storable(t: Table, puts: Model) {
    (forall k <- puts :: Representable(k)) && forall id <- t :: StandsApart(t, id)
  }

  ghost predicate DataInv(s: State) {
    && StoresHold(s.stores, s.puts) && RepairsHold(s.repairs, s.puts)
    && Current(s.table, s.puts) && JobsHold(s.table, s.jobs, s.puts) && Storable(s.table, s.puts)
  }

  lemma WrittenHolds(stores: Stores, puts: Model, addr: string, id: string, v: nat, data: string)
    requires StoresHold(stores, puts) && (id, v) in puts && puts[(id, v)] == data
    ensures StoresHold(Written(stores, addr, id, v, data), puts)
  {}

  lemma DroppedHolds(stores: Stores, puts: Model, addr: string, id: string)
    requires StoresHold(stores, puts)
    ensures StoresHold(Dropped(stores, addr, id), puts)
  {}

  lemma {:induction false} WriteAllHolds(stores: Stores, puts: Model, addrs: seq<string>, id: string, v: nat, data: string)
    requires StoresHold(stores, puts) && (id, v) in puts && puts[(id, v)] == data
    ensures StoresHold(WriteAll(stores, addrs, id, v, data), puts)
  {
    if addrs != [] {
      WriteAllHolds(stores, puts, addrs[..|addrs| - 1], id, v, data);
    }
  }

  ghost predicate Stray(stores: Stores, puts: Model, addrs: seq<string>, id: string) {
    forall addr, k :: addr in stores && k in stores[addr] ==>
      (k in puts && puts[k] == stores[addr][k]) || (k.0 == id && addr in addrs)
  }

  lemma {:induction false} WriteAllStrays(stores: Stores, puts: Model, addrs: seq<string>, id: string, v: nat, data: string)
    requires StoresHold(stores, puts)
    ensures Stray(WriteAll(stores, addrs, id, v, data), puts, addrs, id)
  {
    if addrs != [] {
      WriteAllStrays(stores, puts, addrs[..|addrs| - 1], id, v, data);
    }
  }

  lemma {:induction false} DropAllClears(stores: Stores, puts: Model, addrs: seq<string>, rest: seq<string>, id: string)
    requires Stray(stores, puts, addrs + rest, id)
    ensures Stray(DropAll(stores, addrs, id), puts, rest, id)
  {
    if addrs == [] {
      assert addrs + rest == rest;
    } else {
      var init, last := addrs[..|addrs| - 1], addrs[|addrs| - 1];
      assert addrs + rest == init + ([last] + rest);
      DropAllClears(stores, puts, init, [last] + rest, id);
    }
  }

  /** A put that fails leaves nothing behind: rollback removes every version it wrote. */
  lemma RollbackHolds(stores: Stores, puts: Model, addrs: seq<string>, id: string, v: nat, data: string)
    requires StoresHold(stores, puts)
    ensures StoresHold(DropAll(WriteAll(stores, addrs, id, v, data), addrs, id), puts)
  {
    WriteAllStrays(stores, puts, addrs, id, v, data);
    assert addrs + [] == addrs;
    DropAllClears(WriteAll(stores, addrs, id, v, data), puts, addrs, [], id);
  }

  /** Whatever node answers a read at the table's version or above, it answers with the
      latest acknowledged put. */
  lemma AnswerIsLatest(s: State, addr: string, id: string, min: nat, v: nat, data: string)
    requires DataInv(s) && id in s.table && Serves(s.stores, addr, id, min, v, data)
    ensures (id, v) in s.puts && s.puts[(id, v)] == data && v <= s.table[id].version
    ensures s.table[id].version <= min ==> v == s.table[id].version && IsLatest(s.puts, id, v)
  {
    assert (id, v) in s.stores[addr];
  }

  /** A node that is up to date on a chunk holds the bytes of its latest acknowledged put. */
  lemma UpToDateHolds(s: State, addr: string, id: string)
    requires DataInv(s) && id in s.table && UpToDate(s.stores, addr, id, s.table[id].version)
    ensures (id, s.table[id].version) in s.puts
    ensures Holds(s.stores, addr, id, s.table[id].version, s.puts[(id, s.table[id].version)])
  {
    var v :| s.table[id].version <= v && (id, v) in At(s.stores, addr);
    assert (id, v) in s.stores[addr];
  }

  /** An acknowledged put is the chunk's latest, and its id stands apart from the others. */
  lemma PutIsCurrent(s: State, p: Step)
    requires DataInv(s) && p.Put? && PutEnabled(s, p)
    ensures var puts, t := s.puts[(p.id, NextVersion(s.table, p.id)) := p.data], Apply(s.table, PutCommand(s, p));
      Current(t, puts) && Storable(t, puts)
  {
    var v, puts, t := NextVersion(s.table, p.id), s.puts[(p.id, NextVersion(s.table, p.id)) := p.data], Apply(s.table, PutCommand(s, p));
    forall id | id in t ensures IsLatest(puts, id, t[id].version) {
      assert id != p.id ==> IsLatest(s.puts, id, s.table[id].version);
    }
    forall id | id in t ensures StandsApart(t, id) {
      assert id != p.id ==> StandsApart(s.table, id);
    }
  }

  lemma PutKeepsJobs(s: State, p: Step)
    requires DataInv(s) && p.Put? && PutEnabled(s, p)
    ensures JobsHold(Apply(s.table, PutCommand(s, p)), s.jobs, s.puts[(p.id, NextVersion(s.table, p.id)) := p.data])
  {
    forall id | id in s.jobs ensures id in s.table && id != p.id {
      assert JobHolds(s.table[id], s.jobs[id], id, s.puts);
    }
  }

  lemma OkPutKeepsData(s: State, p: Step)
    requires DataInv(s) && p.Put? && PutEnabled(s, p) && PutSucceeds(s, p)
    ensures DataInv(AfterPut(s, p))
  {
    var v, puts := NextVersion(s.table, p.id), AfterPut(s, p).puts;
    assert (p.id, v) !in s.puts;
    assert StoresHold(s.stores, puts) && RepairsHold(s.repairs, puts);
    WriteAllHolds(s.stores, puts, Acked(s, p), p.id, v, p.data);
    PutIsCurrent(s, p);
    PutKeepsJobs(s, p);
  }

  lemma PutKeepsData(s: State, p: Step)
    requires DataInv(s) && p.Put? && PutEnabled(s, p)
    ensures DataInv(AfterPut(s, p))
  {
    if PutSucceeds(s, p) {
      OkPutKeepsData(s, p);
    } else {
      RollbackHolds(s.stores, s.puts, Acked(s, p), p.id, NextVersion(s.table, p.id), p.data);
    }
  }

  /** Placement changes keep ids and versions, and with them what they must satisfy. */
  lemma SameIdsHold(t: Table, t': Table, puts: Model)
    requires Current(t, puts) && Storable(t, puts) && t'.Keys == t.Keys
    requires forall id <- t :: t'[id].version == t[id].version
    ensures Current(t', puts) && Storable(t', puts)
  {
    forall id | id in t' ensures StandsApart(t', id) {
      assert StandsApart(t, id);
    }
  }

  lemma StartKeepsData(s: State, id: string, caller: Caller, plan: seq<string>, quorum: bool)
    requires DataInv(s) && StartEnabled(s, id, caller, plan)
    ensures DataInv(AfterStart(s, id, plan, quorum))
  {
    SameIdsHold(s.table, AfterStart(s, id, plan, quorum).table, s.puts);
  }

  ghost predicate IsJobStep(step: Step) {
    step.Skip? || step.Fetch? || step.Store? || step.BeginVerify? || step.Answer? || step.Commit? || step.Abort?
  }

  lemma FetchKeepsData(s: State, step: Step)
    requires DataInv(s) && Enabled(s, step) && step.Fetch?
    ensures DataInv(After(s, step))
  {
    var job := s.jobs[step.id];
    assert JobHolds(s.table[step.id], job, step.id, s.puts);
    AnswerIsLatest(s, SourceOf(job.oldSet, job.nodes), step.id, job.version, step.v, step.data);
  }

  lemma StoreKeepsData(s: State, id: string)
    requires DataInv(s) && id in s.jobs && JobEnabled(s.stores, s.jobs[id], Store(id))
    ensures DataInv(AfterStore(s, id))
  {
    var job := s.jobs[id];
    assert JobHolds(s.table[id], job, id, s.puts);
    WrittenHolds(s.stores, s.puts, ResolveAddress(job.newSet[job.phase.next], job.nodes),
                 id, job.version, job.phase.fetched.value);
  }

  lemma CommitKeepsData(s: State, id: string, quorum: bool)
    requires DataInv(s) && id in s.jobs
    ensures DataInv(AfterCommit(s, id, quorum))
  {
    assert JobHolds(s.table[id], s.jobs[id], id, s.puts);
    SameIdsHold(s.table, AfterCommit(s, id, quorum).table, s.puts);
  }

  lemma JobStepKeepsData(s: State, step: Step)
    requires DataInv(s) && Enabled(s, step) && IsJobStep(step)
    ensures DataInv(After(s, step))
  {
    if step.Fetch? {
      FetchKeepsData(s, step);
    } else if step.Store? {
      StoreKeepsData(s, step.id);
    } else if step.Commit? {
      CommitKeepsData(s, step.id, step.quorum);
    } else {
      assert JobHolds(s.table[step.id], s.jobs[step.id], step.id, s.puts);
    }
  }

  lemma FetchedHolds(s: State, peer: string, id: string, v: nat, data: string)
    requires StoresHold(s.stores, s.puts) && RepairsHold(s.repairs, s.puts) && Serves(s.stores, peer, id, 0, v, data)
    ensures RepairsHold(s.repairs + {Copy.Copy(id, v, data)}, s.puts)
  {
    assert (id, v) in s.stores[peer];
  }

  lemma RepairStepKeepsData(s: State, step: Step)
    requires DataInv(s) && Enabled(s, step)
    requires step.RepairFetch? || step.RepairWrite? || step.Drop? || step.ChangeNodes?
    ensures DataInv(After(s, step))
  {
    if step.RepairFetch? {
      FetchedHolds(s, step.peer, step.id, step.v, step.data);
    } else if step.RepairWrite? {
      WrittenHolds(s.stores, s.puts, step.addr, step.copy.id, step.copy.version, step.copy.data);
    } else if step.Drop? {
      DroppedHolds(s.stores, s.puts, step.addr, step.id);
    }
  }

  lemma StepKeepsData(s: State, step: Step)
    requires DataInv(s) && Enabled(s, step)
    ensures DataInv(After(s, step))
  {
    if step.Put? {
      PutKeepsData(s, step);
    } else if step.Start? {
      StartKeepsData(s, step.id, step.caller, step.plan, step.quorum);
    } else if IsJobStep(step) {
      JobStepKeepsData(s, step);
    } else {
      RepairStepKeepsData(s, step);
    }
  }

  // ---------------------------------------------------------------- reads

  predicate IsOkPut(s: State, step: Step, id: string) {
    step.Put? && step.id == id && |step.chosen| == |step.wrote| && PutSucceeds(s, step)
  }

  /** The version and bytes of the last acknowledged put of a chunk in a run. */
  ghost function LastPut(s: State, steps: seq<Step>, id: string): Option<(nat, string)>
    requires Run(s, steps)
    decreases |steps|
  {
    if steps == [] then None
    else
      var later := LastPut(After(s, steps[0]), steps[1..], id);
      if later.Some? then later
      else if IsOkPut(s, steps[0], id) then Some((NextVersion(s.table, id), steps[0].data))
      else None
  }

  /** The table and the puts say the same about a chunk's versions and bytes. */
  ghost predicate SameChunk(s: State, t: State, id: string) {
    && (id in t.table <==> id in s.table) && (id in s.table ==> t.table[id].version == s.table[id].version)
    && forall v :: ((id, v) in t.puts <==> (id, v) in s.puts) && ((id, v) in s.puts ==> t.puts[(id, v)] == s.puts[(id, v)])
  }

  ghost predicate TableSteps(step: Step) {
    step.Put? || step.Start? || step.Commit?
  }

  lemma OtherStepsKeepTable(s: State, step: Step)
    requires Enabled(s, step) && !TableSteps(step)
    ensures After(s, step).table == s.table && After(s, step).puts == s.puts
  {}

  lemma PutVersion(s: State, p: Step, id: string)
    requires p.Put? && |p.chosen| == |p.wrote| && !IsOkPut(s, p, id)
    ensures SameChunk(s, AfterPut(s, p), id)
  {}

  lemma StartVersion(s: State, chunk: string, plan: seq<string>, quorum: bool, id: string)
    requires chunk in s.table
    ensures SameChunk(s, AfterStart(s, chunk, plan, quorum), id)
  {}

  lemma CommitVersion(s: State, chunk: string, quorum: bool, id: string)
    requires chunk in s.jobs && chunk in s.table
    ensures SameChunk(s, AfterCommit(s, chunk, quorum), id)
  {}

  /** Only an acknowledged put of a chunk creates it, changes its version, by one, or adds
      to its puts. */
  lemma StepVersion(s: State, step: Step, id: string)
    requires DataInv(s) && Enabled(s, step)
    ensures var t := After(s, step);
      if IsOkPut(s, step, id) then
        && id in t.table && t.table[id].version == NextVersion(s.table, id)
        && t.puts == s.puts[(id, NextVersion(s.table, id)) := step.data]
      else SameChunk(s, t, id)
  {
    if step.Put? {
      if !IsOkPut(s, step, id) {
        PutVersion(s, step, id);
      }
    } else if step.Start? {
      StartVersion(s, step.id, step.plan, step.quorum, id);
    } else if step.Commit? {
      CommitVersion(s, step.id, step.quorum, id);
    } else {
      OtherStepsKeepTable(s, step);
    }
  }

  lemma {:induction false} RunKeepsData(s: State, steps: seq<Step>)
    requires DataInv(s) && Run(s, steps)
    ensures DataInv(EndOf(s, steps))
    decreases |steps|
  {
    if steps != [] {
      StepKeepsData(s, steps[0]);
      RunKeepsData(After(s, steps[0]), steps[1..]);
    }
  }

  /** A chunk's entry at the end of a run carries the version of its last acknowledged put;
      without one its version and bytes are those it started with. */
  lemma {:induction false} VersionIsLastPut(s: State, steps: seq<Step>, id: string)
    requires DataInv(s) && Run(s, steps)
    ensures var last, t := LastPut(s, steps, id), EndOf(s, steps);
      && (id in t.table <==> id in s.table || last.Some?)
      && (last.Some? ==>
            && t.table[id].version == last.value.0
            && (id, last.value.0) in t.puts && t.puts[(id, last.value.0)] == last.value.1)
      && (last.None? && id in s.table ==>
            && t.table[id].version == s.table[id].version
            && var k := (id, s.table[id].version); k in s.puts && k in t.puts && t.puts[k] == s.puts[k])
    ensures id in s.table ==> s.table[id].version <= EndOf(s, steps).table[id].version
    decreases |steps|
  {
    if steps != [] {
      StepKeepsData(s, steps[0]);
      StepVersion(s, steps[0], id);
      VersionIsLastPut(After(s, steps[0]), steps[1..], id);
    }
  }

  /** The version floor of a get: the table's version unless the caller names one. */
  function Target(min: nat, version: nat): nat {
    if min == 0 then version else min
  }

  /** Read safety. A get reads the metadata after `before`, and its read is served by any node
      at all after `during`, with repairs, copies and puts going on. It returns an acknowledged
      put no older than its floor. When no put of the chunk is acknowledged meanwhile and the
      floor is not below the metadata's version, it returns the last acknowledged put. */
  lemma ReadSafety(nodes: seq<NodeEntry>, before: seq<Step>, during: seq<Step>,
                   id: string, min: nat, addr: string, v: nat, data: string)
    requires Run(Initial(nodes), before) && Run(EndOf(Initial(nodes), before), during)
    requires id in EndOf(Initial(nodes), before).table
    requires var s := EndOf(Initial(nodes), before);
      Serves(EndOf(s, during).stores, addr, id, Target(min, s.table[id].version), v, data)
    ensures var s := EndOf(Initial(nodes), before);
      var t := EndOf(s, during);
      && (id, v) in t.puts && t.puts[(id, v)] == data && id in t.table
      && Target(min, s.table[id].version) <= v <= t.table[id].version
      && (LastPut(s, during, id).None? && (min == 0 || s.table[id].version <= min) ==>
            LastPut(Initial(nodes), before, id) == Some((v, data)))
  {
    var s := EndOf(Initial(nodes), before);
    var t := EndOf(s, during);
    RunKeepsData(Initial(nodes), before);
    RunKeepsData(s, during);
    VersionIsLastPut(Initial(nodes), before, id);
    VersionIsLastPut(s, during, id);
    AnswerIsLatest(t, addr, id, Target(min, s.table[id].version), v, data);
  }
}
