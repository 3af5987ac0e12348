/** The leader's handlers as programs over the cluster: PutChunk, the reconfiguration driver
    and a storage node's repair round. Each of them takes only steps of the cluster's state
    machine, so everything proved about runs holds of them. The outcomes of remote calls are
    arguments. */
module Leader {
  import opened Text
  import opened Sets
  import opened Coordinator
  import opened Placement
  import opened Planner
  import opened Payload
  import opened ChunkStore
  import opened Cluster
  import opened Brackets

  /** What a storage node answers a read with. */
  method ReadLatest(m: Model, id: string, min: nat) returns (r: Option<(nat, string)>)
    ensures r.Some? ==> IsLatest(m, id, r.value.0) && min <= r.value.0 && m[(id, r.value.0)] == r.value.1
    ensures r.None? ==> forall v :: (id, v) in m ==> v < min
  {
    r := None;
    var left := m.Keys;
    while left != {}
      invariant left <= m.Keys
      invariant r.Some? ==> (id, r.value.0) in m && m[(id, r.value.0)] == r.value.1
      invariant forall k <- m.Keys - left :: k.0 == id ==> r.Some? && k.1 <= r.value.0
    {
      var k :| k in left;
      left := left - {k};
      if k.0 == id && (r.None? || r.value.0 < k.1) {
        r := Some((k.1, m[k]));
      }
    }
    assert forall v :: (id, v) in m ==> (id, v) in m.Keys - left;
    if r.Some? && r.value.0 < min {
      r := None;
    }
  }

  /** The write outcomes of a put, replica by replica; a target without address is never reached. */
  function Outcomes(addrs: seq<string>, up: nat -> bool): (r: seq<bool>)
    ensures |r| == |addrs|
  {
    seq(|addrs|, i requires 0 <= i < |addrs| => addrs[i] != "" && up(i))
  }

  /** A put goes ahead when the chunk is not in transition and there are enough alive nodes. */
  ghost predicate PutAdmitted(s: State, id: string, rf: int) {
    (id in s.table ==> s.table[id].configState.Stable?) && rf <= |Candidates(s.alive, {})|
  }

  /** The step a put takes: on the best-scored nodes, reaching those that are up. */
  ghost function PutStepOf(cfg: Config, s: State, id: string, size: nat, rf: int, data: string, up: nat -> bool, quorum: bool): (p: Step)
    ensures p.Put? && |p.wrote| == |p.chosen|
  {
    var chosen := Ids(Top(StaticScore(cfg), Candidates(s.alive, {}), rf));
    Put(id, size, rf, data, chosen, Outcomes(Addresses(EncodeTargets(chosen, s.alive), s.alive), up), quorum)
  }

  /** A put that goes ahead is that one step, and answers with the new version exactly when it
      succeeds. */
  ghost predicate PutTaken(before: State, after: State, p: Step, run: seq<Step>, run': seq<Step>, r: Option<nat>)
    requires p.Put? && |p.chosen| == |p.wrote|
  {
    && run' == run + [p] && after == AfterPut(before, p)
    && r == if PutSucceeds(before, p) then Some(NextVersion(before.table, p.id)) else None
  }

  /** What a put means: when it succeeds, a majority of the new replica set holds the bytes of
      the new version; when it fails, the table and the puts are as before and every stored
      version is still an acknowledged one. */
  lemma PutOutcome(s: State, p: Step)
    requires DataInv(s) && p.Put? && PutEnabled(s, p)
    ensures var t, v := AfterPut(s, p), NextVersion(s.table, p.id);
      if PutSucceeds(s, p) then
        && p.id in t.table && t.table[p.id].version == v && t.table[p.id].configState.Stable?
        && IsLatest(t.puts, p.id, v) && t.puts == s.puts[(p.id, v) := p.data]
        && 2 * |Acked(s, p)| > |t.table[p.id].replicaSet|
        && forall a <- Acked(s, p) :: Holds(t.stores, a, p.id, v, p.data)
      else
        t == s.(stores := t.stores, written := t.written) && StoresHold(t.stores, s.puts)
  {
    PutKeepsData(s, p);
    if PutSucceeds(s, p) {
      WriteAllReaches(s.stores, Acked(s, p), p.id, NextVersion(s.table, p.id), p.data);
    }
  }

  lemma TookNext(addrs: seq<string>, wrote: seq<bool>, i: nat)
    requires i < |addrs| == |wrote|
    ensures Took(addrs[..i + 1], wrote[..i + 1]) == Took(addrs[..i], wrote[..i]) + if wrote[i] then [addrs[i]] else []
  {
    assert addrs[..i + 1][..i] == addrs[..i] && wrote[..i + 1][..i] == wrote[..i];
  }

  lemma WriteAllSnoc(stores: Stores, addrs: seq<string>, addr: string, id: string, v: nat, data: string)
    ensures WriteAll(stores, addrs + [addr], id, v, data) == Written(WriteAll(stores, addrs, id, v, data), addr, id, v, data)
  {
    assert (addrs + [addr])[..|addrs|] == addrs;
  }

  class Service {
    var s: State
    ghost const first: seq<NodeEntry>
    ghost var run: seq<Step>

    /** The state is the end of a run from an empty cluster. */
    ghost predicate Valid()
      reads this
    {
      NodesOk(first) && Run(Initial(first), run) && s == EndOf(Initial(first), run)
    }

    constructor (nodes: seq<NodeEntry>)
      requires NodesOk(nodes)
      ensures Valid() && s == Initial(nodes) && first == nodes && run == []
    {
      s := State(nodes, map[], map[], map[], {}, [], map[], []);
      first, run := nodes, [];
    }

    lemma ValidInv()
      requires Valid()
      ensures Inv(s)
    {
      InitialInv(first);
      RunKeepsInv(Initial(first), run);
    }

    ghost method Take(step: Step)
      requires Valid() && Enabled(s, step)
      modifies this`run
      ensures Run(Initial(first), run) && run == old(run) + [step] && EndOf(Initial(first), run) == After(s, step)
    {
      RunSnoc(Initial(first), run, step);
      run := run + [step];
    }

    // -------------------------------------------------------------- puts

    /** Stores the bytes on placed nodes and commits the put when a majority of them took it;
        otherwise no trace of it remains. */
    method PutChunk(cfg: Config, id: string, size: nat, rf: int, data: string, up: nat -> bool, quorum: bool)
      returns (r: Option<nat>)
      requires Valid() && ValidId(id) && size < U64 && IsInt32(rf)
      requires Representable((id, NextVersion(s.table, id))) && StandsApart(s.table, id)
      modifies this
      ensures Valid()
      ensures !PutAdmitted(old(s), id, rf) ==> r.None? && s == old(s) && run == old(run)
      ensures PutAdmitted(old(s), id, rf) ==>
        PutTaken(old(s), s, PutStepOf(cfg, old(s), id, size, rf, data, up, quorum), old(run), run, r)
    {
      ValidInv();
      if id in s.table && s.table[id].configState.Transitioning? {
        return None;
      }
      var nodes := SelectNodes(cfg, rf, s.alive, {});
      if |nodes| < rf {
        return None;
      }
      r := PutOn(nodes, id, size, rf, data, up, quorum, PutStepOf(cfg, s, id, size, rf, data, up, quorum));
    }

    method PutOn(nodes: seq<string>, id: string, size: nat, rf: int, data: string, up: nat -> bool, quorum: bool, ghost step: Step)
      returns (r: Option<nat>)
      requires Valid() && step == Put(id, size, rf, data, nodes, Outcomes(Addresses(EncodeTargets(nodes, s.alive), s.alive), up), quorum)
      requires Enabled(s, step)
      modifies this
      ensures Valid() && PutTaken(old(s), s, step, old(run), run, r)
    {
      var version := NextVersion(s.table, id);
      var stores, entries, reached := WriteReplicas(nodes, id, version, data, up);
      Take(step);
      if |reached| < |entries| / 2 + 1 {
        stores := Rollback(stores, reached, id);
        assert s.written + [] == s.written;
        s := s.(stores := stores);
        return None;
      }
      var c := Command.PutChunk(id, size, rf, entries, version);
      s := s.(written := s.written + [c]);
      if !quorum {
        stores := Rollback(stores, reached, id);
        s := s.(stores := stores);
        return None;
      }
      s := s.(stores := stores, puts := s.puts[(id, version) := data],
              table := Apply(s.table, c), history := s.history + [Logged(c)]);
      return Some(version);
    }

    method WriteReplicas(nodes: seq<string>, id: string, version: nat, data: string, up: nat -> bool)
      returns (stores: Stores, entries: seq<string>, reached: seq<string>)
      ensures entries == EncodeTargets(nodes, s.alive)
      ensures var addrs := Addresses(entries, s.alive); reached == Took(addrs, Outcomes(addrs, up))
      ensures stores == WriteAll(s.stores, reached, id, version, data)
    {
      stores, entries, reached := s.stores, [], [];
      ghost var all := EncodeTargets(nodes, s.alive);
      ghost var addrs := Addresses(all, s.alive);
      ghost var wrote := Outcomes(addrs, up);
      for i := 0 to |nodes|
        invariant entries == all[..i] && reached == Took(addrs[..i], wrote[..i])
        invariant stores == WriteAll(s.stores, reached, id, version, data)
      {
        var entry := EncodeTarget(nodes[i], s.alive);
        var addr := ResolveAddress(entry, s.alive);
        entries := entries + [entry];
        assert all[i] == entry && addrs[i] == addr && wrote[i] == (addr != "" && up(i));
        TookNext(addrs, wrote, i);
        if addr != "" && up(i) {
          WriteAllSnoc(s.stores, reached, addr, id, version, data);
          stores := Written(stores, addr, id, version, data);
          reached := reached + [addr];
        } else {
          assert Took(addrs[..i + 1], wrote[..i + 1]) == reached + [];
        }
      }
      assert addrs[..|nodes|] == addrs && wrote[..|nodes|] == wrote;
    }

    method Rollback(stores: Stores, reached: seq<string>, id: string) returns (cleared: Stores)
      ensures cleared == DropAll(stores, reached, id)
    {
      cleared := stores;
      for i := 0 to |reached|
        invariant cleared == DropAll(stores, reached[..i], id)
      {
        assert reached[..i + 1][..i] == reached[..i];
        cleared := Dropped(cleared, reached[i], id);
      }
      assert reached[..|reached|] == reached;
    }

    // -------------------------------------------------------------- reconfiguration

    /** Copies to every new replica outside the old set, stopping at the first failure. */
    method CopyToNewReplicas(id: string, fetched: nat -> bool, stored: nat -> bool) returns (ok: bool)
      requires Valid() && id in s.jobs && s.jobs[id].phase == Copying(0, None)
      modifies this
      ensures Valid() && old(run) <= run && id in s.jobs
      ensures ok <==> CanCopyAll(old(s.stores), id, old(s.jobs[id]), fetched, stored, |old(s.jobs[id]).newSet|)
      ensures s == old(s).(stores := s.stores, jobs := old(s.jobs)[id := s.jobs[id]])
      ensures ok ==> s.jobs[id] == old(s.jobs[id]).(phase := Copying(|s.jobs[id].newSet|, None))
      ensures ok ==> CopiedUpTo(s.stores, s.puts, id, old(s.jobs[id]), |s.jobs[id].newSet|)
    {
      var job := s.jobs[id];
      var i := 0;
      while i < |job.newSet|
        invariant 0 <= i <= |job.newSet|
        invariant Valid() && old(run) <= run && id in s.jobs && s.jobs[id] == job.(phase := Copying(i, None))
        invariant s == old(s).(stores := s.stores, jobs := old(s.jobs)[id := s.jobs[id]])
        invariant CopiedUpTo(s.stores, s.puts, id, job, i)
        invariant CanCopyAll(old(s.stores), id, job, fetched, stored, i) && SourceKept(old(s.stores), s.stores, id, job)
      {
        ghost var before := s.stores;
        CopyAsAtFirst(old(s.stores), s.stores, id, job, i, fetched(i), stored(i));
        ok := CopyOne(id, fetched(i), stored(i));
        if !ok {
          return;
        }
        CopiedStays(before, s.stores, s.puts, id, job, i);
        SourceStays(old(s.stores), before, s.stores, s.puts, id, job, i);
        i := i + 1;
      }
      return true;
    }

    method CopyOne(id: string, fetched: bool, stored: bool) returns (ok: bool)
      requires Valid() && id in s.jobs && s.jobs[id].phase.Copying? && s.jobs[id].phase.fetched.None?
      requires s.jobs[id].phase.next < |s.jobs[id].newSet|
      modifies this
      ensures Valid() && old(run) <= run && id in s.jobs
      ensures ok <==> CanCopy(old(s.stores), id, old(s.jobs[id]), old(s.jobs[id]).phase.next, fetched, stored)
      ensures s == old(s).(stores := s.stores, jobs := old(s.jobs)[id := s.jobs[id]])
      ensures ok ==> s.jobs[id] == old(s.jobs[id]).(phase := Copying(old(s.jobs[id]).phase.next + 1, None))
      ensures ok ==> CopyEffect(old(s.stores), s.stores, s.puts, id, old(s.jobs[id]), old(s.jobs[id]).phase.next)
    {
      var job := s.jobs[id];
      var i := job.phase.next;
      if NodeIdOf(job.newSet[i]) in NodeIds(job.oldSet) {
        Move(id, Copying(i + 1, None), Skip(id));
        return true;
      }
      ok := FetchAndStore(id, fetched, stored);
    }

    method FetchAndStore(id: string, fetched: bool, stored: bool) returns (ok: bool)
      requires Valid() && id in s.jobs && s.jobs[id].phase.Copying? && s.jobs[id].phase.fetched.None?
      requires s.jobs[id].phase.next < |s.jobs[id].newSet|
      requires NodeIdOf(s.jobs[id].newSet[s.jobs[id].phase.next]) !in NodeIds(s.jobs[id].oldSet)
      modifies this
      ensures Valid() && old(run) <= run && id in s.jobs
      ensures ok <==> CanCopy(old(s.stores), id, old(s.jobs[id]), old(s.jobs[id]).phase.next, fetched, stored)
      ensures s == old(s).(stores := s.stores, jobs := old(s.jobs)[id := s.jobs[id]])
      ensures ok ==> s.jobs[id] == old(s.jobs[id]).(phase := Copying(old(s.jobs[id]).phase.next + 1, None))
      ensures ok ==> CopyEffect(old(s.stores), s.stores, s.puts, id, old(s.jobs[id]), old(s.jobs[id]).phase.next)
    {
      var job := s.jobs[id];
      var r := ReadSource(id, fetched);
      if r.None? {
        return false;
      }
      FetchedIsCurrent(id, SourceOf(job.oldSet, job.nodes), r.value.0, r.value.1);
      Move(id, Copying(job.phase.next, Some(r.value.1)), Fetch(id, r.value.0, r.value.1));
      if stored {
        StoreFetched(id);
      }
      return stored;
    }

    /** What the first old replica with an address answers, if it can be asked at all. */
    method ReadSource(id: string, fetched: bool) returns (r: Option<(nat, string)>)
      requires id in s.jobs && s.jobs[id].phase.Copying? && s.jobs[id].phase.next < |s.jobs[id].newSet|
      ensures r.Some? ==> var job := s.jobs[id];
        && SourceOf(job.oldSet, job.nodes) != "" && ResolveAddress(job.newSet[job.phase.next], job.nodes) != ""
        && Serves(s.stores, SourceOf(job.oldSet, job.nodes), id, job.version, r.value.0, r.value.1)
      ensures r.Some? <==> CanFetch(s.stores, id, s.jobs[id], s.jobs[id].phase.next, fetched)
    {
      var job := s.jobs[id];
      var src := SourceOf(job.oldSet, job.nodes);
      if src == "" || ResolveAddress(job.newSet[job.phase.next], job.nodes) == "" || !fetched {
        return None;
      }
      r := ReadLatest(At(s.stores, src), id, job.version);
    }

    method Move(id: string, phase: Phase, ghost step: Step)
      requires Valid() && Enabled(s, step) && id in s.jobs && After(s, step) == Moved(s, id, phase)
      modifies this
      ensures Valid() && run == old(run) + [step] && s == Moved(old(s), id, phase)
    {
      Take(step);
      s := Moved(s, id, phase);
    }

    method StoreFetched(id: string)
      requires Valid() && id in s.jobs && JobEnabled(s.stores, s.jobs[id], Store(id))
      modifies this
      ensures Valid() && run == old(run) + [Store(id)] && s == AfterStore(old(s), id)
    {
      Take(Store(id));
      s := AfterStore(s, id);
    }

    lemma FetchedIsCurrent(id: string, src: string, v: nat, data: string)
      requires Valid() && id in s.jobs && Serves(s.stores, src, id, s.jobs[id].version, v, data)
      ensures (id, s.jobs[id].version) in s.puts && s.puts[(id, s.jobs[id].version)] == data
    {
      ValidInv();
      assert JobHolds(s.table[id], s.jobs[id], id, s.puts);
      AnswerIsLatest(s, src, id, s.jobs[id].version, v, data);
    }

    /** Asks every new replica for the version, stopping at the first that has less. */
    method VerifyReplicas(id: string, answered: nat -> bool) returns (ok: bool)
      requires Valid() && id in s.jobs && s.jobs[id].phase == Verifying(0)
      modifies this
      ensures Valid() && old(run) <= run && id in s.jobs
      ensures ok <==> CanAnswerAll(s.stores, id, old(s.jobs[id]), answered, |old(s.jobs[id]).newSet|)
      ensures s == old(s).(history := s.history, jobs := old(s.jobs)[id := s.jobs[id]])
      ensures ok ==> s.jobs[id] == old(s.jobs[id]).(phase := Verifying(|s.jobs[id].newSet|))
    {
      var job := s.jobs[id];
      var i := 0;
      while i < |job.newSet|
        invariant 0 <= i <= |job.newSet|
        invariant Valid() && old(run) <= run && id in s.jobs && s.jobs[id] == job.(phase := Verifying(i))
        invariant s == old(s).(history := s.history, jobs := old(s.jobs)[id := s.jobs[id]])
        invariant CanAnswerAll(s.stores, id, job, answered, i)
      {
        ok := VerifyOne(id, answered(i));
        if !ok {
          assert !CanAnswer(s.stores, id, job, i, answered(i));
          return;
        }
        i := i + 1;
      }
      return true;
    }

    method VerifyOne(id: string, answered: bool) returns (ok: bool)
      requires Valid() && id in s.jobs && s.jobs[id].phase.Verifying? && s.jobs[id].phase.next < |s.jobs[id].newSet|
      modifies this
      ensures Valid() && old(run) <= run && id in s.jobs
      ensures ok <==> CanAnswer(s.stores, id, old(s.jobs[id]), old(s.jobs[id]).phase.next, answered)
      ensures s == old(s).(history := s.history, jobs := old(s.jobs)[id := s.jobs[id]])
      ensures s.jobs[id] == if ok then old(s.jobs[id]).(phase := Verifying(old(s.jobs[id]).phase.next + 1)) else old(s.jobs[id])
    {
      var r := AskReplica(id, answered);
      if r.Some? {
        RecordAnswer(id, r.value.0, r.value.1);
      }
      return r.Some?;
    }

    /** What the next new replica answers, if it can be asked at all. */
    method AskReplica(id: string, answered: bool) returns (r: Option<(nat, string)>)
      requires id in s.jobs && s.jobs[id].phase.Verifying? && s.jobs[id].phase.next < |s.jobs[id].newSet|
      ensures r.Some? <==> CanAnswer(s.stores, id, s.jobs[id], s.jobs[id].phase.next, answered)
      ensures r.Some? ==> JobEnabled(s.stores, s.jobs[id], Answer(id, r.value.0, r.value.1))
    {
      var job := s.jobs[id];
      var addr := ResolveAddress(job.newSet[job.phase.next], job.nodes);
      if addr == "" || !answered {
        return None;
      }
      r := ReadLatest(At(s.stores, addr), id, job.version);
    }

    method RecordAnswer(id: string, v: nat, ghost data: string)
      requires Valid() && id in s.jobs && JobEnabled(s.stores, s.jobs[id], Answer(id, v, data))
      modifies this
      ensures Valid() && run == old(run) + [Answer(id, v, data)] && s == AfterAnswer(old(s), id, v)
    {
      Take(Answer(id, v, data));
      s := AfterAnswer(s, id, v);
    }

    method StartJob(id: string, ghost caller: Caller, plan: seq<string>, quorum: bool)
      requires Valid() && StartEnabled(s, id, caller, plan)
      modifies this
      ensures Valid() && run == old(run) + [Start(id, caller, plan, quorum)] && s == AfterStart(old(s), id, plan, quorum)
    {
      Take(Start(id, caller, plan, quorum));
      s := AfterStart(s, id, plan, quorum);
    }

    method EnterVerify(id: string)
      requires Valid() && id in s.jobs && s.jobs[id].phase == Copying(|s.jobs[id].newSet|, None)
      modifies this
      ensures Valid() && run == old(run) + [BeginVerify(id)]
      ensures s == old(s).(jobs := old(s.jobs)[id := old(s.jobs)[id].(nodes := old(s).alive, phase := Verifying(0))])
    {
      Take(BeginVerify(id));
      s := s.(jobs := s.jobs[id := s.jobs[id].(nodes := s.alive, phase := Verifying(0))]);
    }

    method CommitJob(id: string, quorum: bool)
      requires Valid() && id in s.jobs && s.jobs[id].phase == Verifying(|s.jobs[id].newSet|)
      modifies this
      ensures Valid() && run == old(run) + [Commit(id, quorum)] && s == AfterCommit(old(s), id, quorum)
    {
      Take(Commit(id, quorum));
      s := AfterCommit(s, id, quorum);
    }

    method AbortJob(id: string)
      requires Valid() && id in s.jobs
      modifies this
      ensures Valid() && run == old(run) + [Abort(id)] && s == old(s).(jobs := old(s.jobs) - {id})
    {
      Take(Abort(id));
      s := s.(jobs := s.jobs - {id});
    }

    /** Copies and verifies a started job, and commits it when both succeed. */
    method FinishJob(id: string, calls: Calls) returns (ok: bool)
      requires Valid() && id in s.jobs && s.jobs[id].phase == Copying(0, None) && id in s.table
      modifies this
      ensures Valid() && old(run) <= run
      ensures s.puts == old(s.puts) && s.alive == old(s.alive) && s.jobs == old(s.jobs) - {id}
      ensures s.table == if ok then Apply(old(s.table), ReconfigCommit(id, old(s.jobs)[id].newSet)) else old(s.table)
      ensures ok <==> Completes(old(s.stores), s.stores, id, old(s.jobs)[id], s.alive, calls)
    {
      ok := CopyAndVerify(id, calls);
      if ok {
        CommitJob(id, calls.commitQuorum);
        ok := calls.commitQuorum;
      } else {
        AbortJob(id);
      }
    }

    method CopyAndVerify(id: string, calls: Calls) returns (ok: bool)
      requires Valid() && id in s.jobs && s.jobs[id].phase == Copying(0, None)
      modifies this
      ensures Valid() && old(run) <= run && id in s.jobs
      ensures s.puts == old(s.puts) && s.alive == old(s.alive) && s.table == old(s.table)
      ensures s.jobs == old(s.jobs)[id := s.jobs[id]]
      ensures ok ==> s.jobs[id].newSet == old(s.jobs)[id].newSet && s.jobs[id].phase == Verifying(|s.jobs[id].newSet|)
      ensures ok <==> Completes(old(s.stores), s.stores, id, old(s.jobs)[id], s.alive, calls.(commitQuorum := true))
    {
      ok := CopyToNewReplicas(id, calls.fetched, calls.stored);
      if ok {
        EnterVerify(id);
        ok := VerifyReplicas(id, calls.answered);
      }
    }

    /** The driver for its three callers. On success the chunk has the planned replicas, all
        of them holding the current version; otherwise the table is unchanged or the chunk
        stays in transition. Versions and puts never change. */
    method Reconfig(cfg: Config, id: string, caller: Caller, calls: Calls) returns (ok: bool)
      requires Valid()
      modifies this
      ensures Valid() && old(run) <= run
      ensures s.puts == old(s.puts) && s.alive == old(s.alive) && s.jobs == old(s.jobs)
      ensures var plan := StartPlan(cfg, old(s), id, caller);
        if plan.None? then !ok && s == old(s)
        else if !calls.startQuorum then !ok && s == AfterStart(old(s), id, plan.value, false)
        else Attempted(old(s), s, id, caller, plan.value, calls, ok)
      ensures Answers(old(s), s, id, caller, calls, ok)
    {
      ValidInv();
      ghost var s0 := s;
      if id !in s.table || s.table[id].configState.Transitioning? {
        return false;
      }
      CallerPlan(cfg, s, id, caller);
      var e := s.table[id];
      var d := DemandOf(caller, e);
      if d.None? {
        return false;
      }
      var plan := Plan(cfg, NodeIds(e.replicaSet), d.value.newRf, d.value.added, d.value.removed, s.alive);
      if plan.None? {
        return false;
      }
      if !calls.startQuorum {
        StartJob(id, caller, plan.value, false);
        AttemptAnswers(s0, s, id, caller, plan.value, calls, false);
        return false;
      }
      StableHasNoJob(id);
      ok := MoveChunk(id, caller, plan.value, calls);
      AttemptAnswers(s0, s, id, caller, plan.value, calls, ok);
    }

    lemma StableHasNoJob(id: string)
      requires Valid() && id in s.table && s.table[id].configState.Stable?
      ensures id !in s.jobs
    {
      ValidInv();
      assert id in s.jobs ==> JobHolds(s.table[id], s.jobs[id], id, s.puts);
    }

    method MoveChunk(id: string, ghost caller: Caller, plan: seq<string>, calls: Calls) returns (ok: bool)
      requires Valid() && StartEnabled(s, id, caller, plan) && id !in s.jobs
      modifies this
      ensures Valid() && old(run) <= run
      ensures s.puts == old(s.puts) && s.alive == old(s.alive) && s.jobs == old(s.jobs)
      ensures Attempted(old(s), s, id, caller, plan, calls, ok)
    {
      ghost var s0 := s;
      StartJob(id, caller, plan, true);
      JobEnds(s0.jobs, id, s.jobs[id]);
      ok := FinishJob(id, calls);
      AttemptEnds(s0, s, id, caller, plan, calls, ok);
    }
  }

  lemma JobEnds(jobs: map<string, Job>, id: string, job: Job)
    requires id !in jobs
    ensures jobs[id := job] - {id} == jobs
  {}

  lemma AttemptEnds(before: State, after: State, id: string, caller: Caller, plan: seq<string>, calls: Calls, ok: bool)
    requires StartEnabled(before, id, caller, plan) && after.alive == before.alive
    requires var started := AfterStart(before, id, plan, true);
      && after.table == (if ok then Apply(started.table, ReconfigCommit(id, started.jobs[id].newSet)) else started.table)
      && (ok <==> Completes(before.stores, after.stores, id, started.jobs[id], before.alive, calls))
    ensures Attempted(before, after, id, caller, plan, calls, ok)
  {
    if ok {
      var job, newSet := AfterStart(before, id, plan, true).jobs[id], EncodeTargets(plan, before.alive);
      MovedTable(before.table, id, newSet);
      forall i | 0 <= i < |newSet|
        ensures UpToDate(after.stores, ResolveAddress(newSet[i], after.alive), id, before.table[id].version) {
        assert CanAnswer(after.stores, id, job, i, calls.answered(i));
      }
    }
  }

  /** A COMMIT on top of its START leaves the entry with the new set and nothing else changed. */
  lemma MovedTable(t: Table, id: string, newSet: seq<string>)
    requires id in t && t[id].configState.Stable?
    ensures Apply(Apply(t, ReconfigStart(id, t[id].replicaSet, newSet)), ReconfigCommit(id, newSet))
      == t[id := t[id].(replicaSet := newSet, replicationFactor := |newSet|, configState := Stable, oldReplicaSet := [])]
  {}

  // ---------------------------------------------------------------- what the callers get

  /** A caller is refused before anything is planned: a factor that is not positive, no node
      named, a node to add that is there already, a node to remove that is not there or is the
      last one. */
  ghost predicate Refuses(caller: Caller, ids: seq<string>) {
    match caller
    case Policy(rf) => rf <= 0
    case Add(node) => node == "" || node in ids
    case Remove(node) => node == "" || node !in ids || |ids| <= 1
  }

  /** The nodes at hand allow a plan: enough others for a policy, the added one alive. */
  ghost predicate Plannable(caller: Caller, ids: seq<string>, alive: seq<NodeEntry>) {
    match caller
    case Policy(rf) => rf - |ids| <= |Candidates(alive, Elements(ids))|
    case Add(node) => node in Ids(alive)
    case Remove(node) => true
  }

  /** The new node ids are what the caller asked for: as many as the policy wants, extending or
      shortening the old ones at the end; the old ones and the added one; the old ones without
      the removed one. */
  ghost predicate Fulfils(caller: Caller, ids: seq<string>, next: seq<string>) {
    match caller
    case Policy(rf) => |next| == rf && (next <= ids || ids <= next)
    case Add(node) => next == ids + [node]
    case Remove(node) => exists k :: 0 <= k < |ids| && ids[k] == node && next == ids[..k] + ids[k + 1..]
  }

  /** What a caller sees: nothing happens for an unknown chunk, one in transition, a refused
      caller or too few nodes; otherwise, once the START is committed, the chunk has the nodes
      the caller asked for, and is stable again exactly on success. */
  ghost predicate Answers(before: State, after: State, id: string, caller: Caller, calls: Calls, ok: bool) {
    if id !in before.table || before.table[id].configState.Transitioning? then !ok && after == before
    else
      var ids := NodeIds(before.table[id].replicaSet);
      if Refuses(caller, ids) || !Plannable(caller, ids, before.alive) then !ok && after == before
      else if !calls.startQuorum then !ok && after == before.(written := after.written)
      else
        && id in after.table && Fulfils(caller, ids, NodeIds(after.table[id].replicaSet))
        && (ok <==> after.table[id].configState.Stable?)
  }

  lemma OldIdsOk(s: State, id: string)
    requires Inv(s) && id in s.table
    ensures var ids := NodeIds(s.table[id].replicaSet); Distinct(ids) && "" !in ids && NamesOk(ids)
  {
    var e := s.table[id];
    assert WellFormed(id, e);
    forall i | 0 <= i < |e.replicaSet| ensures NameOk(NodeIds(e.replicaSet)[i]) {
      EntryNameOk(e.replicaSet[i]);
    }
  }

  /** A plan exactly when the caller is not refused and there are nodes, and it is what it asked for. */
  ghost predicate PlansFor(caller: Caller, ids: seq<string>, alive: seq<NodeEntry>, plan: Option<seq<string>>) {
    && (plan.Some? <==> !Refuses(caller, ids) && Plannable(caller, ids, alive))
    && (plan.Some? ==> Fulfils(caller, ids, plan.value))
  }

  lemma PolicyCase(cfg: Config, ids: seq<string>, rf: int, alive: seq<NodeEntry>)
    requires Distinct(ids) && "" !in ids
    ensures PlansFor(Policy(rf), ids, alive, if rf <= 0 then None else PlanOf(cfg, ids, rf, "", "", alive))
  {
    if rf > 0 {
      PolicyPlanIs(cfg, ids, rf, alive);
    }
  }

  lemma AddCase(cfg: Config, ids: seq<string>, node: string, alive: seq<NodeEntry>)
    requires Distinct(ids)
    ensures PlansFor(Add(node), ids, alive,
              if node == "" || node in ids then None else PlanOf(cfg, ids, |ids| + 1, node, "", alive))
  {
    if node != "" && node !in ids {
      AddPlanIs(cfg, ids, node, alive);
    }
  }

  lemma RemoveCase(cfg: Config, ids: seq<string>, node: string, alive: seq<NodeEntry>)
    requires Distinct(ids)
    ensures PlansFor(Remove(node), ids, alive,
              if |ids| <= 1 || node == "" || node !in ids then None else PlanOf(cfg, ids, |ids| - 1, "", node, alive))
  {
    if node != "" && node in ids && |ids| > 1 {
      var k :| 0 <= k < |ids| && ids[k] == node;
      RemovePlanIs(cfg, ids, node, alive, k);
      assert Fulfils(Remove(node), ids, ids[..k] + ids[k + 1..]);
    }
  }

  /** The driver plans exactly for the callers it does not refuse, and what they asked for. */
  lemma CallerPlan(cfg: Config, s: State, id: string, caller: Caller)
    requires Inv(s) && id in s.table && s.table[id].configState.Stable?
    ensures PlansFor(caller, NodeIds(s.table[id].replicaSet), s.alive, StartPlan(cfg, s, id, caller))
  {
    OldIdsOk(s, id);
    StartPlanIs(cfg, s, id, caller);
    PlannedCase(cfg, NodeIds(s.table[id].replicaSet), caller, s.alive);
  }

  /** The plan each caller gets for these old ids. */
  ghost function CasePlan(cfg: Config, ids: seq<string>, caller: Caller, alive: seq<NodeEntry>): Option<seq<string>> {
    match caller
    case Policy(rf) => if rf <= 0 then None else PlanOf(cfg, ids, rf, "", "", alive)
    case Add(node) => if node == "" || node in ids then None else PlanOf(cfg, ids, |ids| + 1, node, "", alive)
    case Remove(node) =>
      if |ids| <= 1 || node == "" || node !in ids then None else PlanOf(cfg, ids, |ids| - 1, "", node, alive)
  }

  lemma DemandIs(caller: Caller, e: ChunkEntry)
    ensures var ids, d := NodeIds(e.replicaSet), DemandOf(caller, e);
      match caller
      case Policy(rf) => d == if rf <= 0 then None else Some(Demand(rf, "", ""))
      case Add(node) => d == if node == "" || node in ids then None else Some(Demand(|ids| + 1, node, ""))
      case Remove(node) =>
        d == if |ids| <= 1 || node == "" || node !in ids then None else Some(Demand(|ids| - 1, "", node))
  {}

  ghost function DemandPlan(cfg: Config, ids: seq<string>, d: Option<Demand>, alive: seq<NodeEntry>): Option<seq<string>> {
    if d.None? then None else PlanOf(cfg, ids, d.value.newRf, d.value.added, d.value.removed, alive)
  }

  lemma DemandPlanIs(cfg: Config, ids: seq<string>, caller: Caller, d: Option<Demand>, alive: seq<NodeEntry>)
    requires match caller
      case Policy(rf) => d == if rf <= 0 then None else Some(Demand(rf, "", ""))
      case Add(node) => d == if node == "" || node in ids then None else Some(Demand(|ids| + 1, node, ""))
      case Remove(node) =>
        d == if |ids| <= 1 || node == "" || node !in ids then None else Some(Demand(|ids| - 1, "", node))
    ensures DemandPlan(cfg, ids, d, alive) == CasePlan(cfg, ids, caller, alive)
  {}

  lemma StartPlanIs(cfg: Config, s: State, id: string, caller: Caller)
    requires id in s.table && s.table[id].configState.Stable?
    ensures StartPlan(cfg, s, id, caller) == CasePlan(cfg, NodeIds(s.table[id].replicaSet), caller, s.alive)
  {
    DemandIs(caller, s.table[id]);
    DemandPlanIs(cfg, NodeIds(s.table[id].replicaSet), caller, DemandOf(caller, s.table[id]), s.alive);
  }

  lemma PlannedCase(cfg: Config, ids: seq<string>, caller: Caller, alive: seq<NodeEntry>)
    requires Distinct(ids) && "" !in ids
    ensures PlansFor(caller, ids, alive, CasePlan(cfg, ids, caller, alive))
  {
    match caller
    case Policy(rf) => PolicyCase(cfg, ids, rf, alive);
    case Add(node) => AddCase(cfg, ids, node, alive);
    case Remove(node) => RemoveCase(cfg, ids, node, alive);
  }

  lemma StartedIds(s: State, id: string, caller: Caller, plan: seq<string>)
    requires Inv(s) && StartEnabled(s, id, caller, plan)
    ensures NodeIds(EncodeTargets(plan, s.alive)) == plan
  {
    OldIdsOk(s, id);
    var d := DemandOf(caller, s.table[id]).value;
    PlanNames(NodeIds(s.table[id].replicaSet), d.newRf, d.added, d.removed, s.alive, plan);
    EncodedDistinct(plan, s.alive);
  }

  /** The table after a START, followed by a COMMIT or not, has the planned nodes. */
  lemma AttemptedTable(before: State, after: State, id: string, caller: Caller, plan: seq<string>, calls: Calls, ok: bool)
    requires Inv(before) && Attempted(before, after, id, caller, plan, calls, ok)
    ensures id in after.table && NodeIds(after.table[id].replicaSet) == plan && (ok <==> after.table[id].configState.Stable?)
  {
    StartedIds(before, id, caller, plan);
    assert after.table[id].replicaSet == EncodeTargets(plan, before.alive);
  }

  lemma AttemptAnswers(before: State, after: State, id: string, caller: Caller, plan: seq<string>, calls: Calls, ok: bool)
    requires Inv(before) && StartEnabled(before, id, caller, plan)
    requires var ids := NodeIds(before.table[id].replicaSet);
      !Refuses(caller, ids) && Plannable(caller, ids, before.alive) && Fulfils(caller, ids, plan)
    requires if calls.startQuorum then Attempted(before, after, id, caller, plan, calls, ok)
             else !ok && after == AfterStart(before, id, plan, false)
    ensures Answers(before, after, id, caller, calls, ok)
  {
    if calls.startQuorum {
      AttemptedTable(before, after, id, caller, plan, calls, ok);
    }
  }

  /** The outcomes of a reconfiguration's remote calls. */
  datatype Calls = Calls(startQuorum: bool, commitQuorum: bool, fetched: nat -> bool, stored: nat -> bool, answered: nat -> bool)

  /** Copying, verification and the COMMIT all succeed. */
  ghost predicate Completes(before: Stores, after: Stores, id: string, job: Job, nodes: seq<NodeEntry>, calls: Calls) {
    && CanCopyAll(before, id, job, calls.fetched, calls.stored, |job.newSet|)
    && CanAnswerAll(after, id, job.(nodes := nodes), calls.answered, |job.newSet|) && calls.commitQuorum
  }

  /** The plan of a reconfiguration the driver starts, if it starts one. */
  ghost function StartPlan(cfg: Config, s: State, id: string, caller: Caller): Option<seq<string>> {
    if id !in s.table || s.table[id].configState.Transitioning? then None
    else
      DemandPlan(cfg, NodeIds(s.table[id].replicaSet), DemandOf(caller, s.table[id]), s.alive)
  }

  /** A started reconfiguration moves the chunk exactly when everything succeeds, and leaves it
      in transition otherwise. */
  ghost predicate Attempted(before: State, after: State, id: string, caller: Caller, plan: seq<string>, calls: Calls, ok: bool) {
    && StartEnabled(before, id, caller, plan)
    && (ok <==> Completes(before.stores, after.stores, id, AfterStart(before, id, plan, true).jobs[id], before.alive, calls))
    && if ok then Moves(before, after, id, caller, plan) else after.table == AfterStart(before, id, plan, true).table
  }

  /** The chunk has moved to the plan: every planned replica has its current version. */
  ghost predicate Moves(before: State, after: State, id: string, caller: Caller, plan: seq<string>) {
    && StartEnabled(before, id, caller, plan)
    && var e, newSet := before.table[id], EncodeTargets(plan, before.alive);
       && after.table == before.table[id := e.(replicaSet := newSet, replicationFactor := |plan|, configState := Stable,
                                               oldReplicaSet := [])]
       && forall i :: 0 <= i < |newSet| ==> UpToDate(after.stores, ResolveAddress(newSet[i], after.alive), id, e.version)
  }

  ghost predicate CanFetch(stores: Stores, id: string, job: Job, i: nat, fetched: bool)
    requires i < |job.newSet|
  {
    var src := SourceOf(job.oldSet, job.nodes);
    src != "" && ResolveAddress(job.newSet[i], job.nodes) != "" && fetched && UpToDate(stores, src, id, job.version)
  }

  /** Copying to a new replica succeeds: it is an old one, or both addresses are known, the
      source has the version and both calls get through. */
  ghost predicate CanCopy(stores: Stores, id: string, job: Job, i: nat, fetched: bool, stored: bool)
    requires i < |job.newSet|
  {
    NodeIdOf(job.newSet[i]) in NodeIds(job.oldSet) || (CanFetch(stores, id, job, i, fetched) && stored)
  }

  ghost predicate CanCopyAll(stores: Stores, id: string, job: Job, fetched: nat -> bool, stored: nat -> bool, n: nat)
    requires n <= |job.newSet|
  {
    forall i :: 0 <= i < n ==> CanCopy(stores, id, job, i, fetched(i), stored(i))
  }

  /** A replica answers the verification: its address is known, the call gets through and it
      has the version. */
  ghost predicate CanAnswer(stores: Stores, id: string, job: Job, i: nat, answered: bool)
    requires i < |job.newSet|
  {
    var addr := ResolveAddress(job.newSet[i], job.nodes);
    addr != "" && answered && UpToDate(stores, addr, id, job.version)
  }

  ghost predicate CanAnswerAll(stores: Stores, id: string, job: Job, answered: nat -> bool, n: nat)
    requires n <= |job.newSet|
  {
    forall i :: 0 <= i < n ==> CanAnswer(stores, id, job, i, answered(i))
  }

  /** Either nothing has been copied yet or the source had the version from the start, and
      still has it. */
  ghost predicate SourceKept(first: Stores, now: Stores, id: string, job: Job) {
    var src := SourceOf(job.oldSet, job.nodes);
    now == first || (UpToDate(first, src, id, job.version) && UpToDate(now, src, id, job.version))
  }

  lemma CopyAsAtFirst(first: Stores, now: Stores, id: string, job: Job, i: nat, fetched: bool, stored: bool)
    requires i < |job.newSet| && SourceKept(first, now, id, job)
    ensures CanCopy(now, id, job, i, fetched, stored) <==> CanCopy(first, id, job, i, fetched, stored)
  {}

  lemma SourceStays(first: Stores, before: Stores, after: Stores, puts: Model, id: string, job: Job, i: nat)
    requires i < |job.newSet| && SourceKept(first, before, id, job) && CopyEffect(before, after, puts, id, job, i)
    requires CanCopy(before, id, job, i, true, true)
    ensures SourceKept(first, after, id, job)
  {
    if NodeIdOf(job.newSet[i]) !in NodeIds(job.oldSet) {
      var src := SourceOf(job.oldSet, job.nodes);
      var v :| job.version <= v && (id, v) in At(before, src);
      assert (id, v) in At(after, src);
    }
  }

  /** What copying to one new replica does: nothing when it is an old one, otherwise it now
      holds the bytes of the chunk's current put. */
  ghost predicate CopyEffect(before: Stores, after: Stores, puts: Model, id: string, job: Job, i: nat)
    requires i < |job.newSet|
  {
    if NodeIdOf(job.newSet[i]) in NodeIds(job.oldSet) then after == before
    else
      && (id, job.version) in puts
      && after == Written(before, ResolveAddress(job.newSet[i], job.nodes), id, job.version, puts[(id, job.version)])
  }

  ghost predicate CopiedUpTo(stores: Stores, puts: Model, id: string, job: Job, n: nat)
    requires n <= |job.newSet|
  {
    forall i :: 0 <= i < n && NodeIdOf(job.newSet[i]) !in NodeIds(job.oldSet) ==>
      && (id, job.version) in puts
      && Holds(stores, ResolveAddress(job.newSet[i], job.nodes), id, job.version, puts[(id, job.version)])
  }

  lemma CopiedStays(before: Stores, after: Stores, puts: Model, id: string, job: Job, n: nat)
    requires n < |job.newSet| && CopiedUpTo(before, puts, id, job, n) && CopyEffect(before, after, puts, id, job, n)
    ensures CopiedUpTo(after, puts, id, job, n + 1)
  {}

}
