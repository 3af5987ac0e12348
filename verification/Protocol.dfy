/** Log replication as a distributed protocol: one leader, its replication threads, and
    followers behind a network that loses, repeats and reorders messages
    (src/meta/meta_replication.cpp, src/meta/meta_follower.cpp). */
module Protocol {
  import opened Replication
  import opened Sets
  import Wal

  datatype Follower = Follower(term: nat, log: seq<Wal.Entry>, committed: nat)

  /** Where the thread that replicates one entry to one follower stands. */
  datatype Phase = Pending | Sent | CatchingUp(next: nat) | Finished

  /** Messages stay in the network once sent, so they may be delivered late, repeatedly, in any
      order or never. `accepted` holds the positive answers followers have given, `acks` the
      acknowledgements the leader has booked and `okWrites` the writes reported as OK. */
  datatype State = State(
    log: seq<Wal.Entry>, committed: nat,
    matchIndex: map<string, nat>, ackCounts: map<nat, nat>,
    followers: map<string, Follower>,
    workers: map<(string, nat), Phase>,
    requests: set<(string, Append)>, commitRequests: set<(string, nat)>, accepted: set<(string, nat)>,
    acks: set<(string, nat)>, okWrites: set<nat>)

  datatype Step =
    | Write(kind: Wal.Byte, payload: string)
    | SendDirect(addr: string, index: nat)
    | DirectAck(addr: string, index: nat)
    | DirectFail(addr: string, index: nat)
    | SendCatchUp(addr: string, index: nat)
    | CatchUpAck(addr: string, index: nat)
    | Stop(addr: string, index: nat)
    | Deliver(addr: string, request: Append)
    | DeliverCommit(addr: string, index: nat)
    | FinishWrite(index: nat)
    | Fetch(addr: string, index: nat)
    | RestartFollower(addr: string)
    | RestartLeader

  predicate InPhase(s: State, addr: string, index: nat, p: Phase) {
    (addr, index) in s.workers && s.workers[(addr, index)] == p
  }

  predicate IsCatchingUp(s: State, addr: string, index: nat) {
    (addr, index) in s.workers && s.workers[(addr, index)].CatchingUp?
  }

  predicate Enabled(s: State, step: Step) {
    match step
    case Write(_, payload) => |payload| < 0x1_0000_0000
    case SendDirect(a, i) => InPhase(s, a, i, Pending) && 1 <= i <= |s.log|
    case DirectAck(a, i) => InPhase(s, a, i, Sent) && (a, i) in s.accepted
    case DirectFail(a, i) => InPhase(s, a, i, Sent) && a in s.matchIndex
    case SendCatchUp(a, i) => IsCatchingUp(s, a, i) && 1 <= s.workers[(a, i)].next <= i <= |s.log|
    case CatchUpAck(a, i) =>
      IsCatchingUp(s, a, i) && s.workers[(a, i)].next <= i && (a, s.workers[(a, i)].next) in s.accepted
    case Stop(a, i) => IsCatchingUp(s, a, i)
    case Deliver(a, m) => (a, m) in s.requests && a in s.followers
    case DeliverCommit(a, i) => (a, i) in s.commitRequests && a in s.followers
    case FinishWrite(i) => i in s.ackCounts && s.ackCounts[i] >= Majority(|s.matchIndex|)
    case Fetch(a, i) => a in s.followers && 1 <= i <= |s.log|
    case RestartFollower(a) => a in s.followers
    case RestartLeader => true
  }

  function Booked(s: State, addr: string, index: nat): State {
    s.(ackCounts := AckCount(s.ackCounts, index), matchIndex := MatchAfter(s.matchIndex, addr, index),
       acks := s.acks + {(addr, index)}, commitRequests := s.commitRequests + {(addr, index)})
  }

  function Max(a: nat, b: nat): nat {
    if a < b then b else a
  }

  function Do(s: State, step: Step): State
    requires Enabled(s, step)
  {
    match step
    case Write(kind, payload) =>
      var i := |s.log| + 1;
      s.(log := s.log + [Wal.Entry(TERM, kind, payload)], ackCounts := s.ackCounts[i := 0],
         workers := map w | w in s.workers.Keys + (set a | a in s.followers :: (a, i)) ::
                      if w in s.workers then s.workers[w] else Pending)
    case SendDirect(a, i) =>
      s.(workers := s.workers[(a, i) := Sent], requests := s.requests + {(a, RequestFor(s.log, i))})
    case DirectAck(a, i) => Booked(s, a, i).(workers := s.workers[(a, i) := Finished])
    case DirectFail(a, i) => s.(workers := s.workers[(a, i) := CatchingUp(s.matchIndex[a] + 1)])
    case SendCatchUp(a, i) =>
      s.(requests := s.requests + {(a, RequestFor(s.log, s.workers[(a, i)].next))})
    case CatchUpAck(a, i) =>
      var next := s.workers[(a, i)].next;
      Booked(s, a, next).(workers := s.workers[(a, i) := CatchingUp(next + 1)])
    case Stop(a, i) => s.(workers := s.workers[(a, i) := Finished])
    case Deliver(a, m) =>
      var f := s.followers[a];
      var f' := f.(term := TermAfter(f.term, m), log := LogAfter(f.term, f.log, m));
      s.(followers := s.followers[a := f'],
         accepted := if Accepts(Judge(f.term, f.log, m)) then s.accepted + {(a, m.index)} else s.accepted)
    case DeliverCommit(a, i) =>
      var f := s.followers[a];
      if i > |f.log| then s else s.(followers := s.followers[a := f.(committed := Max(f.committed, i))])
    case FinishWrite(i) => s.(committed := Max(s.committed, i), okWrites := s.okWrites + {i})
    case Fetch(a, i) => s.(requests := s.requests + {(a, RequestFor(s.log, i))})
    case RestartFollower(a) => s.(followers := s.followers[a := s.followers[a].(term := 0)])
    case RestartLeader =>
      s.(matchIndex := map a | a in s.matchIndex :: 0, ackCounts := map[], workers := map[], acks := {})
  }

  predicate Initial(s: State) {
    && s.log == [] && s.committed == 0 && s.ackCounts == map[] && s.workers == map[]
    && s.requests == {} && s.commitRequests == {} && s.accepted == {} && s.acks == {} && s.okWrites == {}
    && s.followers.Keys == s.matchIndex.Keys
    && (forall a <- s.followers :: s.followers[a] == Follower(0, [], 0) && s.matchIndex[a] == 0)
  }

  /** A run: consecutive states of any enabled steps from an initial state. */
  ghost predicate Run(states: seq<State>, steps: seq<Step>) {
    && |states| == |steps| + 1 && Initial(states[0])
    && forall k :: 0 <= k < |steps| ==> Enabled(states[k], steps[k]) && states[k + 1] == Do(states[k], steps[k])
  }

  // ---------------------------------------------------------------- invariant

  ghost predicate LogsAgree(s: State) {
    && s.followers.Keys == s.matchIndex.Keys && AllInTerm(s.log)
    && forall a <- s.followers :: FollowerOk(s.log, s.followers[a], s.matchIndex[a])
  }

  /** A follower's log is a prefix of the leader's and covers its match index and its commits. */
  ghost predicate FollowerOk(log: seq<Wal.Entry>, f: Follower, matched: nat) {
    f.term <= TERM && f.log <= log && matched <= |f.log| && f.committed <= |f.log|
  }

  ghost predicate RequestsGenuine(s: State) {
    forall r <- s.requests :: 1 <= r.1.index <= |s.log| && r.1 == RequestFor(s.log, r.1.index)
  }

  ghost predicate AcceptedHeld(s: State) {
    forall p <- s.accepted :: p.0 in s.followers && 1 <= p.1 <= |s.followers[p.0].log|
  }

  ghost predicate AcksMatched(s: State) {
    && (forall p <- s.acks :: p.0 in s.matchIndex && p.1 <= s.matchIndex[p.0])
    && forall i <- s.ackCounts :: s.ackCounts[i] > 0 ==> exists p <- s.acks :: p.1 == i
  }

  ghost predicate WorkersBehindMatch(s: State) {
    forall w <- s.workers ::
      && w.0 in s.matchIndex && 1 <= w.1 <= |s.log|
      && (s.workers[w].CatchingUp? ==> 1 <= s.workers[w].next <= s.matchIndex[w.0] + 1)
  }

  ghost predicate OkWritesHeld(s: State) {
    forall i <- s.okWrites :: s.followers != map[] ==> exists a <- s.followers :: i <= |s.followers[a].log|
  }

  ghost predicate Inv(s: State) {
    LogsAgree(s) && RequestsGenuine(s) && AcceptedHeld(s) && AcksMatched(s) && WorkersBehindMatch(s) && OkWritesHeld(s)
  }

  /** A delivered request is a duplicate, the next entry, or ahead of a gap; the other branches
      of the append check never run. */
  lemma GenuineDelivery(s: State, a: string, m: Append)
    requires Inv(s) && (a, m) in s.requests && a in s.followers
    ensures var f := s.followers[a];
      && Judge(f.term, f.log, m) ==
           (if m.index <= |f.log| then Duplicate else if m.index == |f.log| + 1 then Appended else Gap)
      && f.log <= LogAfter(f.term, f.log, m) <= s.log && TermAfter(f.term, m) == TERM
      && (Accepts(Judge(f.term, f.log, m)) ==> 1 <= m.index <= |LogAfter(f.term, f.log, m)|)
  {
    var f := s.followers[a];
    PrefixAccepts(f.term, f.log, s.log, (a, m).1.index);
    assert f.log == s.log[..|f.log|];
  }

  lemma WriteKeepsLogs(s: State, step: Step)
    requires Inv(s) && Enabled(s, step) && step.Write?
    ensures LogsAgree(Do(s, step)) && RequestsGenuine(Do(s, step))
  {
    var s' := Do(s, step);
    forall a | a in s'.followers ensures FollowerOk(s'.log, s'.followers[a], s'.matchIndex[a]) {
      assert FollowerOk(s.log, s.followers[a], s.matchIndex[a]);
    }
    forall r | r in s'.requests ensures 1 <= r.1.index <= |s'.log| && r.1 == RequestFor(s'.log, r.1.index) {
      assert r in s.requests;
    }
  }

  /** The entry a thread books is on the follower's log. */
  function BookedIndex(s: State, step: Step): nat
    requires Enabled(s, step) && (step.DirectAck? || step.CatchUpAck?)
  {
    if step.DirectAck? then step.index else s.workers[(step.addr, step.index)].next
  }

  lemma BookingKeepsLogs(s: State, step: Step)
    requires Inv(s) && Enabled(s, step) && (step.DirectAck? || step.CatchUpAck?)
    ensures LogsAgree(Do(s, step))
  {
    var s', i := Do(s, step), BookedIndex(s, step);
    assert (step.addr, i) in s.accepted;
    assert s'.matchIndex == MatchAfter(s.matchIndex, step.addr, i);
    forall a | a in s'.followers ensures FollowerOk(s'.log, s'.followers[a], s'.matchIndex[a]) {
      assert FollowerOk(s.log, s.followers[a], s.matchIndex[a]);
    }
  }

  lemma FollowerStepKeepsLogs(s: State, step: Step)
    requires Inv(s) && Enabled(s, step)
    requires step.Deliver? || step.DeliverCommit? || step.RestartFollower?
    ensures LogsAgree(Do(s, step))
  {
    var s', a := Do(s, step), step.addr;
    assert s'.log == s.log && s'.matchIndex == s.matchIndex;
    assert s'.followers == s.followers[a := s'.followers[a]];
    FollowerStaysOk(s, step);
  }

  lemma FollowerStaysOk(s: State, step: Step)
    requires Inv(s) && Enabled(s, step)
    requires step.Deliver? || step.DeliverCommit? || step.RestartFollower?
    ensures FollowerOk(s.log, Do(s, step).followers[step.addr], s.matchIndex[step.addr])
  {
    assert FollowerOk(s.log, s.followers[step.addr], s.matchIndex[step.addr]);
    if step.Deliver? {
      GenuineDelivery(s, step.addr, step.request);
    }
  }

  lemma StepKeepsLogs(s: State, step: Step)
    requires Inv(s) && Enabled(s, step)
    ensures LogsAgree(Do(s, step))
  {
    var s' := Do(s, step);
    if step.Write? {
      WriteKeepsLogs(s, step);
    } else if step.DirectAck? || step.CatchUpAck? {
      BookingKeepsLogs(s, step);
    } else if step.Deliver? || step.DeliverCommit? || step.RestartFollower? {
      FollowerStepKeepsLogs(s, step);
    } else {
      assert s'.log == s.log && s'.followers == s.followers;
      assert !step.RestartLeader? ==> s'.matchIndex == s.matchIndex;
    }
  }

  lemma StepKeepsRequests(s: State, step: Step)
    requires Inv(s) && Enabled(s, step)
    ensures RequestsGenuine(Do(s, step))
  {
    var s' := Do(s, step);
    if step.Write? {
      WriteKeepsLogs(s, step);
    } else {
      assert s'.log == s.log;
      forall r | r in s'.requests ensures 1 <= r.1.index <= |s'.log| && r.1 == RequestFor(s'.log, r.1.index) {
        if r !in s.requests {
          assert r.1 == RequestFor(s.log, r.1.index);
        }
      }
    }
  }

  lemma StepKeepsAccepted(s: State, step: Step)
    requires Inv(s) && Enabled(s, step)
    ensures AcceptedHeld(Do(s, step))
  {
    if step.Deliver? {
      GenuineDelivery(s, step.addr, step.request);
    }
  }

  lemma BookingKeepsAcks(s: State, step: Step)
    requires Inv(s) && Enabled(s, step) && (step.DirectAck? || step.CatchUpAck?)
    ensures AcksMatched(Do(s, step))
  {
    var s', i := Do(s, step), BookedIndex(s, step);
    var p := (step.addr, i);
    assert p in s.accepted && s'.acks == s.acks + {p} && p in s'.acks;
    assert s'.matchIndex == MatchAfter(s.matchIndex, step.addr, i) && s'.ackCounts == AckCount(s.ackCounts, i);
    forall q | q in s'.acks ensures q.0 in s'.matchIndex && q.1 <= s'.matchIndex[q.0] {
      assert q == p || q in s.acks;
    }
    forall j | j in s'.ackCounts && s'.ackCounts[j] > 0 ensures exists q <- s'.acks :: q.1 == j {
      if j != i {
        var q :| q in s.acks && q.1 == j;
        assert q in s'.acks;
      }
    }
  }

  lemma OtherStepsBookNothing(s: State, step: Step)
    requires Enabled(s, step) && !step.DirectAck? && !step.CatchUpAck? && !step.RestartLeader?
    ensures Do(s, step).acks == s.acks && Do(s, step).matchIndex == s.matchIndex
    ensures Do(s, step).ackCounts == if step.Write? then s.ackCounts[|s.log| + 1 := 0] else s.ackCounts
  {}

  lemma StepKeepsAcks(s: State, step: Step)
    requires Inv(s) && Enabled(s, step)
    ensures AcksMatched(Do(s, step))
  {
    var s' := Do(s, step);
    if step.DirectAck? || step.CatchUpAck? {
      BookingKeepsAcks(s, step);
    } else if !step.RestartLeader? {
      OtherStepsBookNothing(s, step);
      forall j | j in s'.ackCounts && s'.ackCounts[j] > 0 ensures exists q <- s'.acks :: q.1 == j {
        assert j in s.ackCounts && s.ackCounts[j] > 0;
      }
    }
  }

  /** The leader's log and, short of a restart, its match indices only grow. */
  lemma MatchGrows(s: State, step: Step)
    requires Enabled(s, step)
    ensures |s.log| <= |Do(s, step).log|
    ensures !step.RestartLeader? ==> forall a <- s.matchIndex ::
      a in Do(s, step).matchIndex && s.matchIndex[a] <= Do(s, step).matchIndex[a]
  {}

  lemma NewWorker(s: State, step: Step, w: (string, nat))
    requires Inv(s) && step.Write? && Enabled(s, step) && w in Do(s, step).workers && w !in s.workers
    ensures w.0 in s.matchIndex && w.1 == |s.log| + 1 && Do(s, step).workers[w] == Pending
  {}

  /** A thread that moves in a step is where the step puts it. */
  lemma WorkerMoves(s: State, step: Step, w: (string, nat))
    requires Inv(s) && Enabled(s, step) && !step.Write? && w in Do(s, step).workers
    requires !(w in s.workers && s.workers[w] == Do(s, step).workers[w])
    ensures w in s.workers
    ensures Do(s, step).workers[w].CatchingUp? ==>
      && w.0 in s.matchIndex && w.0 in Do(s, step).matchIndex
      && 1 <= Do(s, step).workers[w].next <= Do(s, step).matchIndex[w.0] + 1
  {
    assert w == (step.addr, step.index) && w in s.workers;
    if step.CatchUpAck? {
      assert (step.addr, s.workers[w].next) in s.accepted;
    }
  }

  lemma StepKeepsWorkers(s: State, step: Step)
    requires Inv(s) && Enabled(s, step)
    ensures WorkersBehindMatch(Do(s, step))
  {
    var s' := Do(s, step);
    MatchGrows(s, step);
    forall w | w in s'.workers
      ensures w.0 in s'.matchIndex && 1 <= w.1 <= |s'.log|
      ensures s'.workers[w].CatchingUp? ==> 1 <= s'.workers[w].next <= s'.matchIndex[w.0] + 1
    {
      if step.Write? && w !in s.workers {
        NewWorker(s, step, w);
      } else if !step.Write? && !(w in s.workers && s.workers[w] == s'.workers[w]) {
        WorkerMoves(s, step, w);
      }
    }
  }

  /** Followers stay, and their logs only grow. */
  lemma FollowersGrow(s: State, step: Step)
    requires Inv(s) && Enabled(s, step)
    ensures Do(s, step).followers.Keys == s.followers.Keys
    ensures forall a <- s.followers :: a in Do(s, step).followers && |s.followers[a].log| <= |Do(s, step).followers[a].log|
  {
    if step.Deliver? {
      GenuineDelivery(s, step.addr, step.request);
    }
  }

  lemma FinishedIsAcked(s: State, i: nat)
    requires Inv(s) && Enabled(s, FinishWrite(i)) && s.followers != map[]
    ensures exists a <- s.followers :: i <= |s.followers[a].log|
  {
    assert |s.matchIndex.Keys| > 0;
    var p :| p in s.acks && p.1 == i;
    assert FollowerOk(s.log, s.followers[p.0], s.matchIndex[p.0]);
  }

  lemma OkWriteSteps(s: State, step: Step, i: nat)
    requires Enabled(s, step) && i in Do(s, step).okWrites
    ensures i in s.okWrites || step == FinishWrite(i)
  {}

  lemma StepKeepsOkWrites(s: State, step: Step)
    requires Inv(s) && Enabled(s, step)
    ensures OkWritesHeld(Do(s, step))
  {
    var s' := Do(s, step);
    FollowersGrow(s, step);
    forall i | i in s'.okWrites && s'.followers != map[] ensures exists a <- s'.followers :: i <= |s'.followers[a].log| {
      OkWriteSteps(s, step, i);
      assert s.followers.Keys != {};
      if i !in s.okWrites {
        FinishedIsAcked(s, i);
      }
      var a :| a in s.followers && i <= |s.followers[a].log|;
      assert a in s'.followers && i <= |s'.followers[a].log|;
    }
  }

  lemma StepKeepsInv(s: State, step: Step)
    requires Inv(s) && Enabled(s, step)
    ensures Inv(Do(s, step))
  {
    StepKeepsLogs(s, step);
    StepKeepsRequests(s, step);
    StepKeepsAccepted(s, step);
    StepKeepsAcks(s, step);
    StepKeepsWorkers(s, step);
    StepKeepsOkWrites(s, step);
  }

  lemma {:induction false} RunKeepsInv(states: seq<State>, steps: seq<Step>, k: nat)
    requires Run(states, steps) && k < |states|
    ensures Inv(states[k])
  {
    if k > 0 {
      RunKeepsInv(states, steps, k - 1);
      StepKeepsInv(states[k - 1], steps[k - 1]);
      assert states[k - 1 + 1] == Do(states[k - 1], steps[k - 1]);
    }
  }

  // ---------------------------------------------------------------- what holds in every run

  /** In every state of every run each follower's log is a prefix of the leader's, entry for
      entry, and holds everything up to its match index; a request that reaches a follower is
      never judged stale, unreadable, conflicting or out of place. */
  lemma FollowersArePrefixes(states: seq<State>, steps: seq<Step>, k: nat, a: string)
    requires Run(states, steps) && k < |states| && a in states[k].followers
    ensures var s := states[k];
      var f := s.followers[a];
      && f.log <= s.log && a in s.matchIndex
      && s.matchIndex[a] <= |f.log| && f.log[..s.matchIndex[a]] == s.log[..s.matchIndex[a]]
      && forall m :: (a, m) in s.requests ==>
           (var v := Judge(f.term, f.log, m); v.Duplicate? || v.Appended? || v.Gap?)
  {
    RunKeepsInv(states, steps, k);
    var s := states[k];
    forall m | (a, m) in s.requests
      ensures var v := Judge(s.followers[a].term, s.followers[a].log, m); v.Duplicate? || v.Appended? || v.Gap?
    {
      GenuineDelivery(s, a, m);
    }
    assert FollowerOk(s.log, s.followers[a], s.matchIndex[a]);
  }

  /** A write reported as OK with at least one follower stays durable: from then on some
      follower holds it and the whole log before it. */
  lemma OkWriteIsDurable(states: seq<State>, steps: seq<Step>, k: nat, i: nat)
    requires Run(states, steps) && k < |states| && i in states[k].okWrites && states[k].followers != map[]
    ensures exists a <- states[k].followers ::
      i <= |states[k].followers[a].log| <= |states[k].log| && states[k].followers[a].log[..i] == states[k].log[..i]
  {
    RunKeepsInv(states, steps, k);
    var s := states[k];
    var a :| a in s.followers && i <= |s.followers[a].log|;
    assert FollowerOk(s.log, s.followers[a], s.matchIndex[a]);
    assert s.followers[a].log[..i] == s.log[..i];
  }

  /** Catch-up never stalls on a rejection: whatever else has been delivered, the follower
      accepts the entry a catching-up thread sends next, and a thread past its target has both
      the follower's log and its match index there. */
  lemma CatchUpIsAccepted(states: seq<State>, steps: seq<Step>, k: nat, a: string, i: nat)
    requires Run(states, steps) && k < |states| && IsCatchingUp(states[k], a, i)
    ensures var s := states[k];
      var next := s.workers[(a, i)].next;
      && a in s.followers && a in s.matchIndex && 1 <= i <= |s.log| && 1 <= next
      && (next <= i ==> Accepts(Judge(s.followers[a].term, s.followers[a].log, RequestFor(s.log, next))))
      && (next > i ==> s.matchIndex[a] >= i && |s.followers[a].log| >= i)
  {
    RunKeepsInv(states, steps, k);
    var s := states[k];
    assert (a, i) in s.workers;
    assert FollowerOk(s.log, s.followers[a], s.matchIndex[a]);
    var next := s.workers[(a, i)].next;
    if next <= i {
      PrefixAccepts(s.followers[a].term, s.followers[a].log, s.log, next);
    }
  }

  // ---------------------------------------------------------------- quorums

  /** A thread starts only after the threads of all earlier entries to the same follower have
      finished: replication calls to a follower run in index order. */
  predicate InOrder(s: State, step: Step) {
    step.SendDirect? ==>
      forall w <- s.workers :: w.0 == step.addr && w.1 < step.index ==> s.workers[w].Finished?
  }

  ghost predicate OrderedRun(states: seq<State>, steps: seq<Step>) {
    Run(states, steps) && forall k :: 0 <= k < |steps| ==> InOrder(states[k], steps[k])
  }

  ghost function Ackers(acks: set<(string, nat)>, i: nat): set<string> {
    set p | p in acks && p.1 == i :: p.0
  }

  lemma NewAcker(acks: set<(string, nat)>, a: string, i: nat, j: nat)
    requires (a, i) !in acks
    ensures |Ackers(acks + {(a, i)}, j)| == |Ackers(acks, j)| + if i == j then 1 else 0
  {
    var more, p := acks + {(a, i)}, (a, i);
    if i == j {
      assert a !in Ackers(acks, i);
      assert Ackers(more, i) == Ackers(acks, i) + {a} by {
        assert p in more && p.0 == a;
      }
    } else {
      assert Ackers(more, j) == Ackers(acks, j);
    }
  }

  ghost function HoldersOf(s: State, i: nat): set<string> {
    set a | a in s.followers && i <= |s.followers[a].log|
  }

  /** An unfinished thread is about to deliver something beyond its follower's match index. */
  ghost predicate ThreadAhead(matchIndex: map<string, nat>, w: (string, nat), p: Phase) {
    match p
    case Finished => true
    case CatchingUp(next) => w.0 in matchIndex && matchIndex[w.0] + 1 == next <= w.1 + 1
    case _ => w.0 in matchIndex && matchIndex[w.0] < w.1
  }

  ghost predicate OneAtATime(workers: map<(string, nat), Phase>) {
    forall v, w :: v in workers && w in workers && v.0 == w.0 && v.1 < w.1 ==>
      workers[v].Finished? || workers[w].Pending?
  }

  ghost predicate ThreadsAhead(matchIndex: map<string, nat>, workers: map<(string, nat), Phase>) {
    forall w <- workers :: ThreadAhead(matchIndex, w, workers[w])
  }

  ghost predicate ThreadsInOrder(s: State) {
    ThreadsAhead(s.matchIndex, s.workers) && OneAtATime(s.workers)
  }

  ghost predicate CountsExact(s: State) {
    forall i <- s.ackCounts :: s.ackCounts[i] == |Ackers(s.acks, i)|
  }

  ghost predicate OkWritesOnMajority(s: State) {
    forall i <- s.okWrites :: 2 * (1 + |HoldersOf(s, i)|) > |s.followers| + 1
  }

  ghost predicate OrderedInv(s: State) {
    Inv(s) && ThreadsInOrder(s) && CountsExact(s) && OkWritesOnMajority(s) && FreshCounts(s)
  }

  /** No acknowledgement is booked for an entry not yet written. */
  ghost predicate FreshCounts(s: State) {
    forall p <- s.acks :: p.1 <= |s.log|
  }

  /** The entry about to be booked lies beyond the follower's match index. */
  lemma BookingIsNew(s: State, step: Step)
    requires OrderedInv(s) && Enabled(s, step) && (step.DirectAck? || step.CatchUpAck?)
    ensures step.addr in s.matchIndex && s.matchIndex[step.addr] < BookedIndex(s, step) <= step.index
    ensures (step.addr, BookedIndex(s, step)) !in s.acks
  {
    assert (step.addr, step.index) in s.workers;
  }

  lemma BookingKeepsCounts(s: State, step: Step)
    requires OrderedInv(s) && Enabled(s, step) && (step.DirectAck? || step.CatchUpAck?)
    ensures CountsExact(Do(s, step))
  {
    BookingIsNew(s, step);
    var s', i := Do(s, step), BookedIndex(s, step);
    var p := (step.addr, i);
    assert s'.acks == s.acks + {p} && s'.ackCounts == AckCount(s.ackCounts, i);
    forall j | j in s'.ackCounts ensures s'.ackCounts[j] == |Ackers(s'.acks, j)| {
      NewAcker(s.acks, step.addr, i, j);
    }
  }

  lemma WriteKeepsCounts(s: State, step: Step)
    requires OrderedInv(s) && Enabled(s, step) && step.Write?
    ensures CountsExact(Do(s, step))
  {
    var s' := Do(s, step);
    forall j | j in s'.ackCounts ensures s'.ackCounts[j] == |Ackers(s'.acks, j)| {
      if j == |s.log| + 1 {
        assert Ackers(s.acks, j) == {};
      }
    }
  }

  lemma StepKeepsCounts(s: State, step: Step)
    requires OrderedInv(s) && Enabled(s, step)
    ensures CountsExact(Do(s, step)) && FreshCounts(Do(s, step))
  {
    var s' := Do(s, step);
    if step.DirectAck? || step.CatchUpAck? {
      BookingKeepsCounts(s, step);
      BookingIsNew(s, step);
      assert s'.acks == s.acks + {(step.addr, BookedIndex(s, step))};
      assert (step.addr, step.index) in s.workers;
    } else if step.Write? {
      WriteKeepsCounts(s, step);
    } else if !step.RestartLeader? {
      assert s'.acks == s.acks && s'.ackCounts == s.ackCounts;
    }
  }

  lemma HoldersGrow(s: State, step: Step, i: nat)
    requires Inv(s) && Enabled(s, step)
    ensures |HoldersOf(s, i)| <= |HoldersOf(Do(s, step), i)| && |Do(s, step).followers| == |s.followers|
  {
    var s' := Do(s, step);
    FollowersGrow(s, step);
    assert |s'.followers| == |s'.followers.Keys| == |s.followers.Keys| == |s.followers|;
    SubsetSize(HoldersOf(s, i), HoldersOf(s', i));
  }

  lemma StepKeepsMajorities(s: State, step: Step)
    requires OrderedInv(s) && Enabled(s, step)
    ensures OkWritesOnMajority(Do(s, step))
  {
    var s' := Do(s, step);
    forall i | i in s'.okWrites ensures 2 * (1 + |HoldersOf(s', i)|) > |s'.followers| + 1 {
      HoldersGrow(s, step, i);
      if i !in s.okWrites {
        assert step == FinishWrite(i);
        assert Ackers(s.acks, i) <= HoldersOf(s, i) by {
          forall p | p in s.acks && p.1 == i ensures p.0 in HoldersOf(s, i) {
            assert FollowerOk(s.log, s.followers[p.0], s.matchIndex[p.0]);
          }
        }
        SubsetSize(Ackers(s.acks, i), HoldersOf(s, i));
        assert |s.matchIndex.Keys| == |s.followers.Keys|;
      }
    }
  }

  lemma ThreadMoves(matchIndex: map<string, nat>, workers: map<(string, nat), Phase>, u: (string, nat), p: Phase)
    requires OneAtATime(workers) && ThreadsAhead(matchIndex, workers) && u in workers && ThreadAhead(matchIndex, u, p)
    requires !workers[u].Pending? || forall w <- workers :: w.0 == u.0 && w.1 < u.1 ==> workers[w].Finished?
    requires p.Finished? || (!p.Pending? && !workers[u].Finished?)
    ensures OneAtATime(workers[u := p]) && ThreadsAhead(matchIndex, workers[u := p])
  {}

  lemma ThreadStepKeepsOrder(s: State, step: Step)
    requires OrderedInv(s) && Enabled(s, step) && InOrder(s, step)
    requires step.SendDirect? || step.DirectFail? || step.Stop?
    ensures ThreadsInOrder(Do(s, step))
  {
    var u := (step.addr, step.index);
    assert ThreadAhead(s.matchIndex, u, s.workers[u]);
    if step.SendDirect? {
      ThreadMoves(s.matchIndex, s.workers, u, Sent);
    } else if step.DirectFail? {
      ThreadMoves(s.matchIndex, s.workers, u, CatchingUp(s.matchIndex[u.0] + 1));
    } else {
      ThreadMoves(s.matchIndex, s.workers, u, Finished);
    }
  }

  lemma OtherStepsMoveNothing(s: State, step: Step)
    requires Enabled(s, step) && !step.DirectAck? && !step.CatchUpAck? && !step.RestartLeader? && !step.Write?
    requires !step.SendDirect? && !step.DirectFail? && !step.Stop?
    ensures Do(s, step).matchIndex == s.matchIndex && Do(s, step).workers == s.workers
  {}

  lemma StepKeepsOrder(s: State, step: Step)
    requires OrderedInv(s) && Enabled(s, step) && InOrder(s, step)
    ensures ThreadsInOrder(Do(s, step))
  {
    if step.DirectAck? || step.CatchUpAck? {
      BookingIsNew(s, step);
      BookingKeepsOrder(s, step);
    } else if step.Write? {
      WriteKeepsOrder(s, step);
    } else if step.SendDirect? || step.DirectFail? || step.Stop? {
      ThreadStepKeepsOrder(s, step);
    } else if !step.RestartLeader? {
      OtherStepsMoveNothing(s, step);
    }
  }

  lemma WriteKeepsOrder(s: State, step: Step)
    requires OrderedInv(s) && Enabled(s, step) && step.Write?
    ensures ThreadsInOrder(Do(s, step))
  {
    var s' := Do(s, step);
    assert s'.matchIndex == s.matchIndex;
    forall w | w in s'.workers && w !in s.workers ensures w.1 == |s.log| + 1 && s'.workers[w].Pending? && w.0 in s.matchIndex && s.matchIndex[w.0] < w.1 {
      assert FollowerOk(s.log, s.followers[w.0], s.matchIndex[w.0]);
    }
    forall w: (string, nat) | w in s.workers ensures w in s'.workers && s'.workers[w] == s.workers[w] && w.1 <= |s.log| {
    }
  }

  /** What booking changes: one match index and one thread. */
  lemma BookingMoves(s: State, step: Step)
    requires Enabled(s, step) && (step.DirectAck? || step.CatchUpAck?)
    requires step.addr in s.matchIndex && s.matchIndex[step.addr] < BookedIndex(s, step)
    ensures var u := (step.addr, step.index);
      && u in s.workers && !s.workers[u].Pending? && !s.workers[u].Finished?
      && Do(s, step).matchIndex == s.matchIndex[step.addr := BookedIndex(s, step)]
      && Do(s, step).workers == s.workers[u :=
           if step.DirectAck? then Finished else CatchingUp(BookedIndex(s, step) + 1)]
  {}

  lemma BookingKeepsOrder(s: State, step: Step)
    requires OrderedInv(s) && Enabled(s, step) && (step.DirectAck? || step.CatchUpAck?)
    requires step.addr in s.matchIndex && s.matchIndex[step.addr] < BookedIndex(s, step) <= step.index
    ensures ThreadsInOrder(Do(s, step))
  {
    BookingMoves(s, step);
    MovedKeepsOrder(s.matchIndex, s.workers, (step.addr, step.index), BookedIndex(s, step),
                    if step.DirectAck? then Finished else CatchingUp(BookedIndex(s, step) + 1));
  }

  lemma MovedKeepsOrder(matchIndex: map<string, nat>, workers: map<(string, nat), Phase>, u: (string, nat), i: nat, p: Phase)
    requires OneAtATime(workers) && ThreadsAhead(matchIndex, workers)
    requires u in workers && !workers[u].Pending? && !workers[u].Finished?
    requires u.0 in matchIndex && matchIndex[u.0] < i <= u.1 && (p == Finished || p == CatchingUp(i + 1))
    ensures OneAtATime(workers[u := p]) && ThreadsAhead(matchIndex[u.0 := i], workers[u := p])
  {
    forall w | w in workers && w != u ensures ThreadAhead(matchIndex[u.0 := i], w, workers[w]) {
      assert ThreadAhead(matchIndex, w, workers[w]);
      if w.0 == u.0 {
        OtherThread(workers, u, w);
      }
    }
  }

  lemma OtherThread(workers: map<(string, nat), Phase>, u: (string, nat), w: (string, nat))
    requires OneAtATime(workers) && u in workers && w in workers && u.0 == w.0 && u != w
    requires !workers[u].Pending? && !workers[u].Finished?
    ensures workers[w].Finished? || (workers[w].Pending? && u.1 < w.1)
  {
    assert u.1 != w.1;
  }

  lemma {:induction false} OrderedRunKeepsInv(states: seq<State>, steps: seq<Step>, k: nat)
    requires OrderedRun(states, steps) && k < |states|
    ensures OrderedInv(states[k])
  {
    if k > 0 {
      OrderedRunKeepsInv(states, steps, k - 1);
      var s, step := states[k - 1], steps[k - 1];
      assert states[k - 1 + 1] == Do(s, step);
      StepKeepsInv(s, step);
      StepKeepsOrder(s, step);
      StepKeepsCounts(s, step);
      StepKeepsMajorities(s, step);
    }
  }

  /** With replication calls in index order the acknowledgement counter is the number of
      distinct followers that acknowledged, each of which holds the entry. */
  lemma CountsAreDistinctAckers(states: seq<State>, steps: seq<Step>, k: nat, i: nat)
    requires OrderedRun(states, steps) && k < |states| && i in states[k].ackCounts
    ensures states[k].ackCounts[i] == |Ackers(states[k].acks, i)|
    ensures Ackers(states[k].acks, i) <= HoldersOf(states[k], i)
  {
    OrderedRunKeepsInv(states, steps, k);
    var s := states[k];
    forall p | p in s.acks && p.1 == i ensures p.0 in HoldersOf(s, i) {
      assert FollowerOk(s.log, s.followers[p.0], s.matchIndex[p.0]);
    }
  }

  /** Then an OK write is on a strict majority of the leader and its followers for good. */
  lemma OkWriteOnMajority(states: seq<State>, steps: seq<Step>, k: nat, i: nat)
    requires OrderedRun(states, steps) && k < |states| && i in states[k].okWrites
    ensures 2 * (1 + |HoldersOf(states[k], i)|) > |states[k].followers| + 1
  {
    OrderedRunKeepsInv(states, steps, k);
  }

  /** So every group of followers that is itself a majority of all nodes holds it with its
      prefix, even when the leader is lost. */
  lemma OkWriteSurvivesLeader(states: seq<State>, steps: seq<Step>, k: nat, i: nat, group: set<string>)
    requires OrderedRun(states, steps) && k < |states| && i in states[k].okWrites
    requires group <= states[k].followers.Keys && 2 * |group| > |states[k].followers| + 1
    ensures exists a <- group ::
      i <= |states[k].followers[a].log| <= |states[k].log| && states[k].followers[a].log[..i] == states[k].log[..i]
  {
    OrderedRunKeepsInv(states, steps, k);
    OkWriteOnMajority(states, steps, k, i);
    var s := states[k];
    MajoritiesMeet(HoldersOf(s, i), group, s.followers.Keys);
    var a :| a in HoldersOf(s, i) * group;
    assert FollowerOk(s.log, s.followers[a], s.matchIndex[a]);
    assert s.followers[a].log[..i] == s.log[..i];
  }

  // ---------------------------------------------------------------- why the order matters

  const E: Wal.Entry := Wal.Entry(TERM, 4, "")

  lemma StepInRun(states: seq<State>, steps: seq<Step>, k: nat)
    requires Run(states, steps) && k < |steps|
    ensures Enabled(states[k], steps[k]) && states[k + 1] == Do(states[k], steps[k])
  {}

  /** Extends a run by one step. */
  lemma Extend(states: seq<State>, steps: seq<Step>, step: Step) returns (s: State, states': seq<State>, steps': seq<Step>)
    requires Run(states, steps) && Enabled(states[|steps|], step)
    ensures s == Do(states[|steps|], step) && states' == states + [s] && steps' == steps + [step]
    ensures Run(states', steps') && states'[|steps'|] == s
  {
    s := Do(states[|steps|], step);
    states', steps' := states + [s], steps + [step];
    assert states'[0] == states[0];
    forall k | 0 <= k < |steps'| ensures Enabled(states'[k], steps'[k]) && states'[k + 1] == Do(states'[k], steps'[k]) {
      if k < |steps| {
        StepInRun(states, steps, k);
        assert states'[k] == states[k] && states'[k + 1] == states[k + 1] && steps'[k] == steps[k];
      } else {
        assert k == |steps| && states'[k] == states[k] && steps'[k] == step && states'[k + 1] == s;
      }
    }
  }

  const FOUR: set<string> := {"a", "b", "c", "d"}

  ghost predicate TwoLogged(s: State) {
    && s.log == [E, E] && s.matchIndex == (map x | x in FOUR :: 0) && s.ackCounts == map[1 := 0, 2 := 0]
    && s.followers == (map x | x in FOUR :: Follower(0, [], 0))
    && InPhase(s, "a", 1, Pending) && InPhase(s, "a", 2, Pending)
  }

  lemma TwoWrites() returns (states: seq<State>, steps: seq<Step>)
    ensures Run(states, steps) && TwoLogged(states[|steps|])
  {
    var s := State([], 0, map x | x in FOUR :: 0, map[], map x | x in FOUR :: Follower(0, [], 0),
                   map[], {}, {}, {}, {}, {});
    states, steps := [s], [];
    s, states, steps := Extend(states, steps, Write(4, ""));
    assert s.log == [E] && "a" in s.followers && ("a", 1) in s.workers;
    s, states, steps := Extend(states, steps, Write(4, ""));
    assert s.log == [E, E] && ("a", 2) in s.workers;
  }

  /** Two writes are logged, and the thread of the second reaches follower "a" first: its
      catch-up delivers and books entry 1. */
  lemma LateThreadFirst() returns (states: seq<State>, steps: seq<Step>)
    ensures Run(states, steps)
    ensures var s := states[|steps|];
      && s.log == [E, E] && s.matchIndex.Keys == s.followers.Keys == FOUR
      && s.followers["a"] == Follower(TERM, [E], 0) && (forall x <- FOUR - {"a"} :: s.followers[x].log == [])
      && s.ackCounts == map[1 := 1, 2 := 0] && InPhase(s, "a", 1, Pending)
  {
    states, steps := TwoWrites();
    var s, m := states[|steps|], RequestFor([E, E], 1);
    s, states, steps := Extend(states, steps, SendDirect("a", 2));
    s, states, steps := Extend(states, steps, DirectFail("a", 2));
    assert s.workers[("a", 2)] == CatchingUp(1);
    s, states, steps := Extend(states, steps, SendCatchUp("a", 2));
    assert ("a", m) in s.requests;
    s, states, steps := Extend(states, steps, Deliver("a", m));
    assert Judge(0, [], m) == Appended && s.followers["a"].log == [E];
    s, states, steps := Extend(states, steps, CatchUpAck("a", 2));
  }

  /** A run that ends with an OK write on no majority. */
  ghost predicate OkOnMinority(states: seq<State>, steps: seq<Step>, i: nat) {
    && Run(states, steps)
    && var s := states[|steps|];
       i in s.okWrites && |s.followers| == 4 && 2 * (1 + |HoldersOf(s, i)|) <= |s.followers| + 1
  }

  /** Out of index order the counter can count one follower twice: a write is then reported
      as OK although only the leader and one of four followers hold it. */
  lemma OutOfOrderCountsTwice()
    ensures exists states, steps :: OkOnMinority(states, steps, 1)
  {
    var states, steps := OutOfOrderRun();
  }

  lemma OutOfOrderRun() returns (states: seq<State>, steps: seq<Step>)
    ensures OkOnMinority(states, steps, 1)
  {
    states, steps := LateThreadFirst();
    var s, m := states[|steps|], RequestFor([E, E], 1);
    s, states, steps := Extend(states, steps, SendDirect("a", 1));
    assert ("a", m) in s.requests;
    assert Judge(TERM, [E], m) == Duplicate;
    s, states, steps := Extend(states, steps, Deliver("a", m));
    s, states, steps := Extend(states, steps, DirectAck("a", 1));
    assert s.ackCounts[1] == 2;
    assert |s.matchIndex| == |s.matchIndex.Keys| == 4 by { assert s.matchIndex.Keys == FOUR; }
    s, states, steps := Extend(states, steps, FinishWrite(1));
    assert |s.followers| == |s.followers.Keys| == 4 by { assert s.followers.Keys == FOUR; }
    assert HoldersOf(s, 1) == {"a"};
  }
}
