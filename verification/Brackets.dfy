/** What the committed entries of a run look like: every reconfiguration is one START and
    at most one COMMIT with nothing about the chunk in between, and COMMIT only follows
    the answers of all new replicas (src/meta/reconfig_driver.cpp, src/meta/meta_rpc.cpp). */
module Brackets {
  import opened Text
  import opened Sets
  import opened Coordinator
  import opened Placement
  import opened Planner
  import opened Payload
  import opened Cluster
  import MetaNode
  import Wal

  // ---------------------------------------------------------------- reading a history

  predicate About(e: Event, id: string) {
    e.Logged? && !e.command.NoChunkEffect? && e.command.id == id
  }

  function Commands(h: seq<Event>): seq<Command> {
    if h == [] then []
    else Commands(h[..|h| - 1]) + if h[|h| - 1].Logged? then [h[|h| - 1].command] else []
  }

  /** The last committed entry about a chunk. */
  function LastCommand(h: seq<Event>, id: string): Option<Command> {
    if h == [] then None
    else if About(h[|h| - 1], id) then Some(h[|h| - 1].command)
    else LastCommand(h[..|h| - 1], id)
  }

  predicate InTransition(h: seq<Event>, id: string) {
    LastCommand(h, id).Some? && LastCommand(h, id).value.ReconfigStart?
  }

  /** The version of the last committed put of a chunk. */
  function VersionOf(h: seq<Event>, id: string): nat {
    if h == [] then 0
    else if About(h[|h| - 1], id) && h[|h| - 1].command.PutChunk? then h[|h| - 1].command.version
    else VersionOf(h[..|h| - 1], id)
  }

  /** A replica answered with at least version v after the last entry about the chunk. */
  predicate AnsweredSince(h: seq<Event>, id: string, replica: string, v: nat) {
    if h == [] || About(h[|h| - 1], id) then false
    else
      var e := h[|h| - 1];
      (e.Answered? && e.id == id && e.replica == replica && e.version >= v) || AnsweredSince(h[..|h| - 1], id, replica, v)
  }

  /** An event fits what went before it. */
  ghost predicate Follows(h: seq<Event>, e: Event) {
    e.Logged? ==>
      match e.command
      case PutChunk(id, _, _, _, version) =>
        !InTransition(h, id) && version == VersionOf(h, id) + 1
      case ReconfigStart(id, _, _) => !InTransition(h, id) && LastCommand(h, id).Some?
      case ReconfigCommit(id, newSet) =>
        && InTransition(h, id) && LastCommand(h, id).value.newSet == newSet
        && forall i :: 0 <= i < |newSet| ==> AnsweredSince(h, id, newSet[i], VersionOf(h, id))
      case DeleteChunk(_) => false
      case NoChunkEffect => true
  }

  ghost predicate Bracketed(h: seq<Event>) {
    h == [] || (Bracketed(h[..|h| - 1]) && Follows(h[..|h| - 1], h[|h| - 1]))
  }

  lemma Snoc(h: seq<Event>, e: Event)
    ensures (h + [e])[..|h + [e]| - 1] == h && (h + [e])[|h + [e]| - 1] == e
  {}

  /** How one more event changes what a history says about a chunk. */
  lemma SnocReads(h: seq<Event>, e: Event, id: string)
    ensures LastCommand(h + [e], id) == if About(e, id) then Some(e.command) else LastCommand(h, id)
    ensures VersionOf(h + [e], id) == if About(e, id) && e.command.PutChunk? then e.command.version else VersionOf(h, id)
    ensures !About(e, id) ==> forall r, v :: AnsweredSince(h, id, r, v) ==> AnsweredSince(h + [e], id, r, v)
    ensures e.Answered? && e.id == id ==> forall v: nat :: v <= e.version ==> AnsweredSince(h + [e], id, e.replica, v)
  {
    Snoc(h, e);
  }

  lemma SnocBracketed(h: seq<Event>, e: Event)
    requires Bracketed(h) && Follows(h, e)
    ensures Bracketed(h + [e])
    ensures Commands(h + [e]) == Commands(h) + if e.Logged? then [e.command] else []
  {
    Snoc(h, e);
  }

  // ---------------------------------------------------------------- names

  ghost predicate EntryOk(e: string) {
    NodeIdOf(e) != "" && ListFree(e)
  }

  ghost predicate EntriesOk(entries: seq<string>) {
    forall i :: 0 <= i < |entries| ==> EntryOk(entries[i])
  }

  ghost predicate NamesOk(ids: seq<string>) {
    forall i :: 0 <= i < |ids| ==> NameOk(ids[i])
  }

  lemma EntryNameOk(e: string)
    requires EntryOk(e)
    ensures NameOk(NodeIdOf(e)) && e != ""
  {
    NodeIdFree(e);
  }

  lemma EntriesValid(entries: seq<string>)
    requires EntriesOk(entries) && entries != []
    ensures ValidReplicas(entries)
  {
    forall i | 0 <= i < |entries| ensures entries[i] != "" && ListFree(entries[i]) {
      EntryNameOk(entries[i]);
    }
  }

  lemma {:induction false} AddressOk(id: string, nodes: seq<NodeEntry>)
    requires forall i :: 0 <= i < |nodes| ==> ListFree(nodes[i].address)
    ensures AddressOf(id, nodes).Some? ==> ListFree(AddressOf(id, nodes).value)
  {
    if nodes != [] && nodes[0].nodeId != id {
      AddressOk(id, nodes[1..]);
    }
  }

  /** Encoded targets with good names: distinct nodes that survive the text formats. */
  lemma TargetsOk(ids: seq<string>, nodes: seq<NodeEntry>)
    requires NodesOk(nodes) && NamesOk(ids) && Distinct(ids)
    ensures EntriesOk(EncodeTargets(ids, nodes)) && DistinctNodes(EncodeTargets(ids, nodes))
  {
    EncodedDistinct(ids, nodes);
    forall i | 0 <= i < |ids| ensures EntryOk(EncodeTarget(ids[i], nodes)) {
      EncodedTarget(ids[i], nodes);
      AddressOk(ids[i], nodes);
    }
  }

  lemma AliveNameOk(nodes: seq<NodeEntry>, id: string)
    requires NodesOk(nodes) && id in Ids(nodes)
    ensures NameOk(id)
  {}

  lemma PlanNames(ids: seq<string>, newRf: nat, added: string, removed: string, nodes: seq<NodeEntry>, plan: seq<string>)
    requires NamesOk(ids) && NodesOk(nodes) && Planned(ids, newRf, added, removed, nodes, plan)
    ensures NamesOk(plan)
  {
    var base := Base(ids, newRf, added, removed);
    KeptDistinct(ids, removed);
    BaseDistinct(ids, newRf, added, removed);
    forall i | 0 <= i < |plan| ensures NameOk(plan[i]) {
      if i < |base| {
        assert plan[i] == base[i] && base[i] in base && base[i] in Targets(ids, added, removed);
        if plan[i] in ids {
          var k :| 0 <= k < |ids| && ids[k] == plan[i];
        } else {
          AliveNameOk(nodes, added);
        }
      } else {
        AliveNameOk(nodes, plan[i]);
      }
    }
  }

  // ---------------------------------------------------------------- the invariant

  /** The entry decodes to the command again, wherever it is applied. */
  ghost predicate Encodable(c: Command) {
    match c
    case PutChunk(id, size, rf, replicas, version) => PutEncodable(id, size, rf, version, replicas)
    case ReconfigStart(id, oldSet, newSet) => ValidId(id) && ValidReplicas(oldSet) && ValidReplicas(newSet)
    case ReconfigCommit(id, newSet) => ValidId(id) && ValidReplicas(newSet)
    case DeleteChunk(_) => true
    case NoChunkEffect => false
  }

  ghost predicate AllWritten(log: seq<Command>) {
    forall i :: 0 <= i < |log| ==> LeaderWritten(log[i]) && Encodable(log[i])
  }

  /** The table is the fold of the committed entries, and its names are good. */
  ghost predicate TableInv(alive: seq<NodeEntry>, t: Table, h: seq<Event>) {
    && NodesOk(alive) && TableWellFormed(t)
    && (forall id <- t :: ValidId(id) && EntriesOk(t[id].replicaSet))
    && t == ApplyAll(map[], Commands(h)) && AllWritten(Commands(h))
  }

  /** What the history says about a chunk is what the table says. */
  ghost predicate ChunkInv(t: Table, h: seq<Event>, id: string) {
    if id in t then
      && LastCommand(h, id).Some? && VersionOf(h, id) == t[id].version
      && (InTransition(h, id) <==> t[id].configState.Transitioning?)
    else LastCommand(h, id).None? && VersionOf(h, id) == 0
  }

  ghost predicate JobInv(h: seq<Event>, id: string, job: Job) {
    && LastCommand(h, id) == Some(ReconfigStart(id, job.oldSet, job.newSet))
    && VersionOf(h, id) == job.version
    && (job.phase.Verifying? ==>
          forall i :: 0 <= i < job.phase.next && i < |job.newSet| ==> AnsweredSince(h, id, job.newSet[i], job.version))
  }

  ghost predicate HistoryInv(s: State) {
    && Bracketed(s.history) && (forall id :: ChunkInv(s.table, s.history, id))
    && forall id <- s.jobs :: id in s.table && JobInv(s.history, id, s.jobs[id])
  }

  // ---------------------------------------------------------------- the table

  lemma ApplyNext(log: seq<Command>, c: Command)
    ensures ApplyAll(map[], log + [c]) == Apply(ApplyAll(map[], log), c)
  {
    assert (log + [c])[..|log + [c]| - 1] == log;
  }

  lemma LoggedKeepsTable(alive: seq<NodeEntry>, t: Table, h: seq<Event>, c: Command)
    requires TableInv(alive, t, h) && LeaderWritten(c) && Encodable(c)
    requires c.PutChunk? ==> EntriesOk(c.replicas)
    requires c.ReconfigStart? || c.ReconfigCommit? ==> EntriesOk(c.newSet)
    requires Bracketed(h) && Follows(h, Logged(c))
    ensures TableInv(alive, Apply(t, c), h + [Logged(c)])
  {
    SnocBracketed(h, Logged(c));
    ApplyNext(Commands(h), c);
    forall id | id in Apply(t, c) ensures WellFormed(id, Apply(t, c)[id]) && ValidId(id) && EntriesOk(Apply(t, c)[id].replicaSet) {
      assert id in t ==> WellFormed(id, t[id]);
    }
  }

  lemma PutWritten(s: State, p: Step)
    requires TableInv(s.alive, s.table, s.history) && p.Put? && PutEnabled(s, p) && MajorityTook(s, p)
    ensures var c := PutCommand(s, p); LeaderWritten(c) && Encodable(c) && EntriesOk(c.replicas)
  {
    forall i | 0 <= i < |p.chosen| ensures NameOk(p.chosen[i]) {
      AliveNameOk(s.alive, p.chosen[i]);
    }
    TargetsOk(p.chosen, s.alive);
    ReachedSize(Addresses(EncodeTargets(p.chosen, s.alive), s.alive), p.wrote);
    EntriesValid(EncodeTargets(p.chosen, s.alive));
  }

  lemma {:induction false} ReachedSize(addrs: seq<string>, wrote: seq<bool>)
    requires |addrs| == |wrote|
    ensures |Took(addrs, wrote)| <= |addrs|
  {
    if addrs != [] {
      ReachedSize(addrs[..|addrs| - 1], wrote[..|addrs| - 1]);
    }
  }

  /** A plan is never empty: the policy asks for a positive factor and RemoveReplica spares
      the last replica. */
  lemma StartWritten(s: State, id: string, caller: Caller, plan: seq<string>)
    requires TableInv(s.alive, s.table, s.history) && StartEnabled(s, id, caller, plan)
    ensures var c := StartCommand(s, id, plan); LeaderWritten(c) && Encodable(c) && EntriesOk(c.newSet)
  {
    var e := s.table[id];
    var d := DemandOf(caller, e).value;
    assert WellFormed(id, e);
    forall i | 0 <= i < |e.replicaSet| ensures NameOk(NodeIds(e.replicaSet)[i]) {
      EntryNameOk(e.replicaSet[i]);
    }
    PlanNames(NodeIds(e.replicaSet), d.newRf, d.added, d.removed, s.alive, plan);
    TargetsOk(plan, s.alive);
    EntriesValid(e.replicaSet);
    EntriesValid(EncodeTargets(plan, s.alive));
  }

  // ---------------------------------------------------------------- the steps

  /** An event about one chunk leaves the other chunks' invariants alone. */
  lemma OthersKeepInv(s: State, t: Table, jobs: map<string, Job>, e: Event, id: string)
    requires HistoryInv(s) && !About(e, id)
    requires (id in t <==> id in s.table) && (id in t ==> t[id] == s.table[id])
    requires id in jobs ==> id in s.jobs && jobs[id] == s.jobs[id]
    ensures ChunkInv(t, s.history + [e], id)
    ensures id in jobs ==> id in t && JobInv(s.history + [e], id, jobs[id])
  {
    assert ChunkInv(s.table, s.history, id);
    SnocReads(s.history, e, id);
  }

  lemma PutKeepsHistory(s: State, p: Step)
    requires DataInv(s) && HistoryInv(s) && p.Put? && PutEnabled(s, p)
    ensures HistoryInv(AfterPut(s, p))
    ensures PutSucceeds(s, p) ==> Follows(s.history, Logged(PutCommand(s, p)))
  {
    if PutSucceeds(s, p) {
      var e, u := Logged(PutCommand(s, p)), AfterPut(s, p);
      assert ChunkInv(s.table, s.history, p.id);
      SnocBracketed(s.history, e);
      forall id ensures ChunkInv(u.table, u.history, id)
                        && (id in u.jobs ==> id in u.table && JobInv(u.history, id, u.jobs[id])) {
        if id == p.id {
          SnocReads(s.history, e, id);
          assert id in s.jobs ==> id in s.table && JobHolds(s.table[id], s.jobs[id], id, s.puts);
        } else {
          OthersKeepInv(s, u.table, u.jobs, e, id);
        }
      }
    }
  }

  lemma StartKeepsHistory(s: State, id: string, caller: Caller, plan: seq<string>)
    requires HistoryInv(s) && StartEnabled(s, id, caller, plan)
    ensures HistoryInv(AfterStart(s, id, plan, true))
    ensures Follows(s.history, Logged(StartCommand(s, id, plan)))
  {
    var e, u := Logged(StartCommand(s, id, plan)), AfterStart(s, id, plan, true);
    assert ChunkInv(s.table, s.history, id);
    SnocBracketed(s.history, e);
    forall i ensures ChunkInv(u.table, u.history, i)
                     && (i in u.jobs ==> i in u.table && JobInv(u.history, i, u.jobs[i])) {
      if i == id {
        SnocReads(s.history, e, i);
      } else {
        OthersKeepInv(s, u.table, u.jobs, e, i);
      }
    }
  }

  lemma CommitKeepsHistory(s: State, id: string)
    requires HistoryInv(s) && id in s.jobs && s.jobs[id].phase == Verifying(|s.jobs[id].newSet|)
    ensures HistoryInv(AfterCommit(s, id, true))
    ensures Follows(s.history, Logged(ReconfigCommit(id, s.jobs[id].newSet)))
  {
    var e, u := Logged(ReconfigCommit(id, s.jobs[id].newSet)), AfterCommit(s, id, true);
    assert ChunkInv(s.table, s.history, id) && JobInv(s.history, id, s.jobs[id]);
    SnocBracketed(s.history, e);
    forall i ensures ChunkInv(u.table, u.history, i)
                     && (i in u.jobs ==> i in u.table && JobInv(u.history, i, u.jobs[i])) {
      if i == id {
        SnocReads(s.history, e, i);
      } else {
        OthersKeepInv(s, u.table, u.jobs, e, i);
      }
    }
  }

  lemma AnswerKeepsHistory(s: State, id: string, v: nat)
    requires HistoryInv(s) && id in s.jobs && s.jobs[id].phase.Verifying?
    requires s.jobs[id].phase.next < |s.jobs[id].newSet| && s.jobs[id].version <= v
    ensures HistoryInv(AfterAnswer(s, id, v))
  {
    var job := s.jobs[id];
    var e, u := Answered(id, job.newSet[job.phase.next], v), AfterAnswer(s, id, v);
    SnocBracketed(s.history, e);
    forall i ensures ChunkInv(u.table, u.history, i)
                     && (i in u.jobs ==> i in u.table && JobInv(u.history, i, u.jobs[i])) {
      if i == id {
        assert ChunkInv(s.table, s.history, i);
        SnocReads(s.history, e, i);
      } else {
        OthersKeepInv(s, u.table, u.jobs, e, i);
      }
    }
  }

  ghost predicate Inv(s: State) {
    DataInv(s) && TableInv(s.alive, s.table, s.history) && HistoryInv(s) && AllWritten(s.written)
  }

  lemma PutKeepsTable(s: State, p: Step)
    requires Inv(s) && p.Put? && PutEnabled(s, p) && PutSucceeds(s, p)
    ensures TableInv(s.alive, Apply(s.table, PutCommand(s, p)), s.history + [Logged(PutCommand(s, p))])
  {
    PutWritten(s, p);
    PutKeepsHistory(s, p);
    LoggedKeepsTable(s.alive, s.table, s.history, PutCommand(s, p));
  }

  lemma StartKeepsTable(s: State, id: string, caller: Caller, plan: seq<string>)
    requires Inv(s) && StartEnabled(s, id, caller, plan)
    ensures var c := StartCommand(s, id, plan); TableInv(s.alive, Apply(s.table, c), s.history + [Logged(c)])
  {
    StartWritten(s, id, caller, plan);
    StartKeepsHistory(s, id, caller, plan);
    LoggedKeepsTable(s.alive, s.table, s.history, StartCommand(s, id, plan));
  }

  lemma CommitWritten(s: State, id: string)
    requires DataInv(s) && TableInv(s.alive, s.table, s.history) && id in s.jobs
    ensures var c := ReconfigCommit(id, s.jobs[id].newSet); LeaderWritten(c) && Encodable(c) && EntriesOk(c.newSet)
  {
    assert JobHolds(s.table[id], s.jobs[id], id, s.puts) && WellFormed(id, s.table[id]);
    EntriesValid(s.jobs[id].newSet);
  }

  lemma CommitKeepsTable(s: State, id: string)
    requires Inv(s) && id in s.jobs && s.jobs[id].phase == Verifying(|s.jobs[id].newSet|)
    ensures var c := ReconfigCommit(id, s.jobs[id].newSet);
      TableInv(s.alive, Apply(s.table, c), s.history + [Logged(c)])
  {
    CommitWritten(s, id);
    CommitKeepsHistory(s, id);
    LoggedKeepsTable(s.alive, s.table, s.history, ReconfigCommit(id, s.jobs[id].newSet));
  }

  lemma AnswerKeepsTable(alive: seq<NodeEntry>, t: Table, h: seq<Event>, e: Event)
    requires TableInv(alive, t, h) && e.Answered?
    ensures TableInv(alive, t, h + [e])
  {
    Snoc(h, e);
    assert Commands(h + [e]) == Commands(h);
  }

  lemma NodesKeepTable(alive: seq<NodeEntry>, t: Table, h: seq<Event>, nodes: seq<NodeEntry>)
    requires TableInv(alive, t, h) && NodesOk(nodes)
    ensures TableInv(nodes, t, h)
  {}

  /** The step commits an entry with a quorum. */
  ghost predicate Commits(s: State, step: Step) {
    || (step.Put? && |step.chosen| == |step.wrote| && PutSucceeds(s, step))
    || (step.Start? && step.quorum) || (step.Commit? && step.quorum)
  }

  /** The steps that commit nothing and hear no answer. */
  lemma OtherStepsAreSilent(s: State, step: Step)
    requires Enabled(s, step) && !Commits(s, step) && !step.Answer?
    ensures var t := After(s, step); t.table == s.table && t.history == s.history
    ensures After(s, step).alive == if step.ChangeNodes? then step.nodes else s.alive
  {}

  lemma OtherStepsKeepJobs(s: State, step: Step, id: string)
    requires HistoryInv(s) && Enabled(s, step) && id in After(s, step).jobs
    requires !Commits(s, step) && !step.Answer?
    ensures id in s.jobs && JobInv(s.history, id, After(s, step).jobs[id])
  {
    if id in s.jobs {
      assert JobInv(s.history, id, s.jobs[id]);
    }
  }

  lemma StepKeepsHistory(s: State, step: Step)
    requires Inv(s) && Enabled(s, step)
    ensures HistoryInv(After(s, step))
  {
    if step.Put? {
      PutKeepsHistory(s, step);
    } else if step.Start? && step.quorum {
      StartKeepsHistory(s, step.id, step.caller, step.plan);
    } else if step.Commit? && step.quorum {
      CommitKeepsHistory(s, step.id);
    } else if step.Answer? {
      AnswerKeepsHistory(s, step.id, step.v);
    } else {
      OtherStepsAreSilent(s, step);
      var t := After(s, step);
      forall id | id in t.jobs ensures id in t.table && JobInv(t.history, id, t.jobs[id]) {
        OtherStepsKeepJobs(s, step, id);
      }
    }
  }

  lemma StepKeepsTable(s: State, step: Step)
    requires Inv(s) && Enabled(s, step)
    ensures var t := After(s, step); TableInv(t.alive, t.table, t.history)
  {
    if step.Put? && PutSucceeds(s, step) {
      PutKeepsTable(s, step);
      assert After(s, step).alive == s.alive;
    } else if step.Start? && step.quorum {
      StartKeepsTable(s, step.id, step.caller, step.plan);
    } else if step.Commit? && step.quorum {
      CommitKeepsTable(s, step.id);
    } else if step.Answer? {
      AnswerKeepsTable(s.alive, s.table, s.history, After(s, step).history[|s.history|]);
    } else {
      OtherStepsAreSilent(s, step);
      if step.ChangeNodes? {
        NodesKeepTable(s.alive, s.table, s.history, step.nodes);
      }
    }
  }

  lemma AppendWritten(written: seq<Command>, c: Command)
    requires AllWritten(written) && LeaderWritten(c) && Encodable(c)
    ensures AllWritten(written + [c])
  {}

  lemma PutKeepsWritten(s: State, p: Step)
    requires Inv(s) && p.Put? && PutEnabled(s, p)
    ensures AllWritten(AfterPut(s, p).written)
  {
    if MajorityTook(s, p) {
      PutWritten(s, p);
      AppendWritten(s.written, PutCommand(s, p));
    } else {
      assert s.written + [] == s.written;
    }
  }

  /** Every entry written to the log has the shape of a leader's entry and survives its
      format, whether or not its quorum is reached. */
  lemma StepKeepsWritten(s: State, step: Step)
    requires Inv(s) && Enabled(s, step)
    ensures AllWritten(After(s, step).written)
  {
    if step.Put? {
      PutKeepsWritten(s, step);
    } else if step.Start? {
      StartWritten(s, step.id, step.caller, step.plan);
      AppendWritten(s.written, StartCommand(s, step.id, step.plan));
    } else if step.Commit? {
      CommitWritten(s, step.id);
      AppendWritten(s.written, ReconfigCommit(step.id, s.jobs[step.id].newSet));
    } else {
      OtherStepsWriteNothing(s, step);
    }
  }

  lemma OtherStepsWriteNothing(s: State, step: Step)
    requires Enabled(s, step) && !step.Put? && !step.Start? && !step.Commit?
    ensures After(s, step).written == s.written
  {}

  lemma InitialInv(nodes: seq<NodeEntry>)
    requires NodesOk(nodes)
    ensures Inv(Initial(nodes))
  {}

  /** Every state of every run satisfies the invariant: among other things each chunk has a
      non-empty replica set of distinct nodes, its factor is the size of that set, and it is
      stable exactly when it has no old set. */
  lemma {:induction false} RunKeepsInv(s: State, steps: seq<Step>)
    requires Inv(s) && Run(s, steps)
    ensures Inv(EndOf(s, steps))
    decreases |steps|
  {
    if steps != [] {
      StepKeepsData(s, steps[0]);
      StepKeepsTable(s, steps[0]);
      StepKeepsHistory(s, steps[0]);
      StepKeepsWritten(s, steps[0]);
      RunKeepsInv(After(s, steps[0]), steps[1..]);
    }
  }

  // ---------------------------------------------------------------- what it means

  ghost predicate Silent(h: seq<Event>, a: int, b: int, id: string)
    requires -1 <= a && b <= |h|
  {
    forall k :: a < k < b ==> !About(h[k], id)
  }

  lemma {:induction false} LastCommandAt(h: seq<Event>, id: string) returns (a: nat)
    requires LastCommand(h, id).Some?
    ensures a < |h| && h[a] == Logged(LastCommand(h, id).value) && About(h[a], id) && Silent(h, a, |h|, id)
    ensures forall r, v :: AnsweredSince(h, id, r, v) ==> HeardBetween(h, a, |h|, id, r, v)
    decreases |h|
  {
    var n := |h| - 1;
    if About(h[n], id) {
      a := n;
    } else {
      a := LastCommandAt(h[..n], id);
      forall r, v | AnsweredSince(h, id, r, v) ensures HeardBetween(h, a, |h|, id, r, v) {
        if AnsweredSince(h[..n], id, r, v) {
          var k :| a < k < n && Hears(h[..n][k], id, r, v);
          assert Hears(h[k], id, r, v);
        } else {
          assert Hears(h[n], id, r, v);
        }
      }
    }
  }

  predicate Hears(e: Event, id: string, replica: string, v: nat) {
    e.Answered? && e.id == id && e.replica == replica && e.version >= v
  }

  ghost predicate HeardBetween(h: seq<Event>, a: nat, b: nat, id: string, replica: string, v: nat)
    requires b <= |h|
  {
    exists k :: a < k < b && Hears(h[k], id, replica, v)
  }

  ghost predicate Closes(h: seq<Event>, a: nat, b: nat)
    requires b < |h| && h[b].Logged? && h[b].command.ReconfigCommit?
  {
    var id, newSet := h[b].command.id, h[b].command.newSet;
    && a < b && h[a].Logged? && h[a].command.ReconfigStart?
    && h[a].command.id == id && h[a].command.newSet == newSet && Silent(h, a, b, id)
    && forall i :: 0 <= i < |newSet| ==> HeardBetween(h, a, b, id, newSet[i], VersionOf(h[..b], id))
  }

  lemma CommitCloses(h: seq<Event>, b: nat)
    requires Bracketed(h) && b < |h| && h[b].Logged? && h[b].command.ReconfigCommit?
    ensures exists a :: Closes(h, a, b)
  {
    var id, newSet := h[b].command.id, h[b].command.newSet;
    PrefixBracketed(h, b);
    var a := LastCommandAt(h[..b], id);
    assert Silent(h, a, b, id);
    forall i | 0 <= i < |newSet| ensures HeardBetween(h, a, b, id, newSet[i], VersionOf(h[..b], id)) {
      assert AnsweredSince(h[..b], id, newSet[i], VersionOf(h[..b], id));
      assert HeardBetween(h[..b], a, |h[..b]|, id, newSet[i], VersionOf(h[..b], id));
      var k :| a < k < b && Hears(h[..b][k], id, newSet[i], VersionOf(h[..b], id));
      assert Hears(h[k], id, newSet[i], VersionOf(h[..b], id));
    }
    assert Closes(h, a, b);
  }

  lemma {:induction false} PrefixBracketed(h: seq<Event>, b: nat)
    requires Bracketed(h) && b < |h|
    ensures Follows(h[..b], h[b]) && Bracketed(h[..b])
  {
    if b < |h| - 1 {
      PrefixBracketed(h[..|h| - 1], b);
      assert h[..|h| - 1][..b] == h[..b];
    }
  }

  lemma StartHolds(h: seq<Event>, a: nat, b: nat)
    requires Bracketed(h) && a < b < |h|
    requires h[a].Logged? && h[a].command.ReconfigStart?
    requires About(h[b], h[a].command.id) && (h[b].command.PutChunk? || h[b].command.ReconfigStart?)
    ensures exists c :: a < c < b && About(h[c], h[a].command.id) && h[c].command.ReconfigCommit?
  {
    var c := FirstAfter(h, h[a].command.id, a, b);
    PrefixBracketed(h, c);
    StillLast(h, a, c, h[a].command.id);
  }

  ghost function HistoryOf(nodes: seq<NodeEntry>, steps: seq<Step>): seq<Event>
    requires Run(Initial(nodes), steps)
  {
    EndOf(Initial(nodes), steps).history
  }

  lemma RunIsBracketed(nodes: seq<NodeEntry>, steps: seq<Step>)
    requires NodesOk(nodes) && Run(Initial(nodes), steps)
    ensures Bracketed(HistoryOf(nodes, steps))
  {
    InitialInv(nodes);
    RunKeepsInv(Initial(nodes), steps);
  }

  /** Over every run a committed COMMIT closes the START with the same new set: nothing about
      the chunk was committed between the two, and there every new replica answered with at
      least the version of the chunk's last put. */
  lemma CommitClosesStart(nodes: seq<NodeEntry>, steps: seq<Step>, b: nat)
    requires NodesOk(nodes) && Run(Initial(nodes), steps)
    requires var h := HistoryOf(nodes, steps); b < |h| && h[b].Logged? && h[b].command.ReconfigCommit?
    ensures exists a :: Closes(HistoryOf(nodes, steps), a, b)
  {
    RunIsBracketed(nodes, steps);
    CommitCloses(HistoryOf(nodes, steps), b);
  }

  /** Over every run no put and no second START of a chunk is committed after a START before a
      COMMIT. */
  lemma StartHoldsOthersOff(nodes: seq<NodeEntry>, steps: seq<Step>, a: nat, b: nat)
    requires NodesOk(nodes) && Run(Initial(nodes), steps)
    requires var h := HistoryOf(nodes, steps);
      && a < b < |h| && h[a].Logged? && h[a].command.ReconfigStart?
      && About(h[b], h[a].command.id) && (h[b].command.PutChunk? || h[b].command.ReconfigStart?)
    ensures var h := HistoryOf(nodes, steps);
      exists c :: a < c < b && About(h[c], h[a].command.id) && h[c].command.ReconfigCommit?
  {
    RunIsBracketed(nodes, steps);
    StartHolds(HistoryOf(nodes, steps), a, b);
  }

  /** The first event about a chunk after a given position. */
  lemma {:induction false} FirstAfter(h: seq<Event>, id: string, a: nat, b: nat) returns (c: nat)
    requires a < b < |h| && About(h[b], id)
    ensures a < c <= b && About(h[c], id) && Silent(h, a, c, id)
    decreases b - a
  {
    if Silent(h, a, b, id) {
      c := b;
    } else {
      var k :| a < k < b && About(h[k], id);
      c := FirstAfter(h, id, a, k);
    }
  }

  lemma {:induction false} StillLast(h: seq<Event>, a: nat, c: nat, id: string)
    requires a < c <= |h| && About(h[a], id) && Silent(h, a, c, id)
    ensures LastCommand(h[..c], id) == Some(h[a].command)
    decreases c - a
  {
    if a + 1 < c {
      StillLast(h, a, c - 1, id);
      assert h[..c][..c - 1] == h[..c - 1];
    }
  }

  /** The entry a command is committed as. */
  function EntryOf(term: nat, c: Command): Wal.Entry
    requires !c.NoChunkEffect?
  {
    match c
    case PutChunk(id, size, rf, replicas, version) =>
      Wal.Entry(term, Wal.PUT_CHUNK, PutPayload(id, size, rf, version, replicas))
    case ReconfigStart(id, oldSet, newSet) => Wal.Entry(term, Wal.RECONFIGURE_START, StartPayload(id, oldSet, newSet))
    case DeleteChunk(id) => Wal.Entry(term, Wal.DELETE_CHUNK, id)
    case ReconfigCommit(id, newSet) => Wal.Entry(term, Wal.RECONFIGURE_COMMIT, CommitPayload(id, newSet))
  }

  /** Over every run: the history is bracketed, and the table is what any node gets by
      decoding the committed entries one after the other. */
  lemma RunIsReplayable(nodes: seq<NodeEntry>, steps: seq<Step>)
    requires NodesOk(nodes) && Run(Initial(nodes), steps)
    ensures var s := EndOf(Initial(nodes), steps);
      && Bracketed(s.history) && s.table == ApplyAll(map[], Commands(s.history)) && TableWellFormed(s.table)
      && forall i :: 0 <= i < |Commands(s.history)| ==> Survives(Commands(s.history)[i])
  {
    InitialInv(nodes);
    RunKeepsInv(Initial(nodes), steps);
    var log := Commands(EndOf(Initial(nodes), steps).history);
    forall i | 0 <= i < |log| ensures Survives(log[i]) {
      EncodableSurvives(log[i]);
    }
  }

  lemma EncodableSurvives(c: Command)
    requires Encodable(c)
    ensures Survives(c)
  {
    match c
    case PutChunk(id, size, rf, replicas, version) => PutPayloadExact(id, size, rf, version, replicas);
    case ReconfigStart(id, oldSet, newSet) => StartPayloadExact(id, oldSet, newSet);
    case ReconfigCommit(id, newSet) => CommitPayloadExact(id, newSet);
    case DeleteChunk(id) =>
      assert forall term :: Decode(EntryOf(term, c)) == Does(c);
  }

  ghost predicate Survives(c: Command) {
    !c.NoChunkEffect? && forall term :: Decode(EntryOf(term, c)) == Does(c)
  }

  // ---------------------------------------------------------------- every written entry

  lemma AllWrittenOf(nodes: seq<NodeEntry>, steps: seq<Step>)
    requires NodesOk(nodes) && Run(Initial(nodes), steps)
    ensures AllWritten(EndOf(Initial(nodes), steps).written)
  {
    InitialInv(nodes);
    RunKeepsInv(Initial(nodes), steps);
  }

  /** A log made of written entries, in any order and number, and of entries that place no
      replicas. */
  ghost predicate Draws(log: seq<Command>, written: seq<Command>) {
    forall i :: 0 <= i < |log| ==> log[i] in written || log[i].DeleteChunk? || log[i].NoChunkEffect?
  }

  /** The chunk invariant for everything a leader ever writes: whichever of the written entries
      a node applies, timed-out ones included, in any order, with repetitions and with deletes
      among them, every chunk has a non-empty set of distinct replicas, a factor equal to its
      size, and is stable exactly when it has no old set. */
  lemma AnyReplayIsWellFormed(nodes: seq<NodeEntry>, steps: seq<Step>, log: seq<Command>)
    requires NodesOk(nodes) && Run(Initial(nodes), steps) && Draws(log, EndOf(Initial(nodes), steps).written)
    ensures TableWellFormed(ApplyAll(map[], log))
  {
    AllWrittenOf(nodes, steps);
    var written := EndOf(Initial(nodes), steps).written;
    forall c | c in log ensures LeaderWritten(c) {
      var i :| 0 <= i < |log| && log[i] == c;
      if c in written {
        WrittenEncodable(written, c);
      }
    }
    LeaderEntriesKeepTable(map[], log);
  }

  /** Entries of a log made of written entries and of other kinds than puts. */
  ghost predicate EntriesDraw(entries: seq<Wal.Entry>, written: seq<Command>) {
    forall i :: 0 <= i < |entries| ==>
      entries[i].kind != Wal.PUT_CHUNK || exists c, term :: c in written && c.PutChunk? && entries[i] == EntryOf(term, c)
  }

  lemma WrittenEncodable(written: seq<Command>, c: Command)
    requires AllWritten(written) && c in written
    ensures LeaderWritten(c) && Encodable(c)
  {}

  lemma EntryNeverThrows(term: nat, c: Command)
    requires Encodable(c)
    ensures !Decode(EntryOf(term, c)).Throws?
  {
    EncodableSurvives(c);
    assert Decode(EntryOf(term, c)) == Does(c);
  }

  /** No such log ever throws when it is applied. */
  lemma WrittenNeverThrows(nodes: seq<NodeEntry>, steps: seq<Step>, entries: seq<Wal.Entry>)
    requires NodesOk(nodes) && Run(Initial(nodes), steps)
    requires EntriesDraw(entries, EndOf(Initial(nodes), steps).written)
    ensures MetaNode.NoneThrows(entries)
  {
    AllWrittenOf(nodes, steps);
    var written := EndOf(Initial(nodes), steps).written;
    forall i | 0 <= i < |entries| ensures !Decode(entries[i]).Throws? {
      if entries[i].kind == Wal.PUT_CHUNK {
        var c, term :| c in written && c.PutChunk? && entries[i] == EntryOf(term, c);
        WrittenEncodable(written, c);
        EntryNeverThrows(term, c);
      }
    }
  }
}
