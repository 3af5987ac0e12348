/** Exactly when the leader's acknowledgement counters are right (src/meta/meta_replication.cpp):
    over every run, ordered or not. */
module AckCounts {
  import opened Protocol

  predicate IsBooking(step: Step) {
    step.DirectAck? || step.CatchUpAck?
  }

  /** The step books an acknowledgement of entry i that is already booked. */
  predicate RepeatsAck(s: State, step: Step, i: nat) {
    IsBooking(step) && Enabled(s, step) && BookedIndex(s, step) == i && (step.addr, i) in s.acks
  }

  /** How many acknowledgements of entry i were booked again since the leader last started. */
  ghost function Repeats(states: seq<State>, steps: seq<Step>, k: nat, i: nat): nat
    requires k <= |steps| < |states|
  {
    if k == 0 || steps[k - 1].RestartLeader? then 0
    else Repeats(states, steps, k - 1, i) + if RepeatsAck(states[k - 1], steps[k - 1], i) then 1 else 0
  }

  /** The counter of entry i is ahead of its distinct ackers by r. */
  ghost predicate AheadBy(s: State, i: nat, r: nat) {
    && (i in s.ackCounts ==> s.ackCounts[i] == |Ackers(s.acks, i)| + r)
    && (i > |s.log| ==> r == 0)
  }

  lemma AcksAreLogged(s: State, p: (string, nat))
    requires Inv(s) && p in s.acks
    ensures p.1 <= |s.log|
  {
    assert FollowerOk(s.log, s.followers[p.0], s.matchIndex[p.0]);
  }

  lemma BookingCounts(s: State, step: Step, i: nat, r: nat)
    requires Inv(s) && Enabled(s, step) && IsBooking(step) && AheadBy(s, i, r)
    ensures AheadBy(Do(s, step), i, r + if RepeatsAck(s, step, i) then 1 else 0)
  {
    var s', b := Do(s, step), BookedIndex(s, step);
    var p := (step.addr, b);
    assert s'.acks == s.acks + {p} && s'.ackCounts == Replication.AckCount(s.ackCounts, b) && s'.log == s.log;
    if p in s.acks {
      assert s'.acks == s.acks;
      AcksAreLogged(s, p);
    } else {
      NewAcker(s.acks, step.addr, b, i);
    }
  }

  lemma StepCounts(s: State, step: Step, i: nat, r: nat)
    requires Inv(s) && Enabled(s, step) && AheadBy(s, i, r)
    ensures AheadBy(Do(s, step), i,
              if step.RestartLeader? then 0 else r + if RepeatsAck(s, step, i) then 1 else 0)
  {
    if IsBooking(step) {
      BookingCounts(s, step, i, r);
    } else if !step.RestartLeader? {
      OtherStepsBookNothing(s, step);
      MatchGrows(s, step);
      if step.Write? && i == |s.log| + 1 {
        forall p | p in s.acks ensures p.1 != i {
          AcksAreLogged(s, p);
        }
        assert Ackers(s.acks, i) == {};
      }
    }
  }

  /** In every state of every run a counter is the number of distinct ackers plus the number
      of acknowledgements booked again. */
  lemma {:induction false} CountIsAckersAndRepeats(states: seq<State>, steps: seq<Step>, k: nat, i: nat)
    requires Run(states, steps) && k < |states|
    ensures AheadBy(states[k], i, Repeats(states, steps, k, i))
  {
    if k > 0 {
      CountIsAckersAndRepeats(states, steps, k - 1, i);
      RunKeepsInv(states, steps, k - 1);
      StepCounts(states[k - 1], steps[k - 1], i, Repeats(states, steps, k - 1, i));
      assert states[k - 1 + 1] == Do(states[k - 1], steps[k - 1]);
    }
  }

  /** Step j booked an acknowledgement of entry i again, and the leader has not restarted since. */
  ghost predicate RepeatedAt(states: seq<State>, steps: seq<Step>, k: nat, i: nat, j: nat)
    requires k <= |steps| < |states|
  {
    j < k && RepeatsAck(states[j], steps[j], i) && forall l :: j < l < k ==> !steps[l].RestartLeader?
  }

  lemma {:induction false} RepeatsFound(states: seq<State>, steps: seq<Step>, k: nat, i: nat)
    requires k <= |steps| < |states|
    ensures Repeats(states, steps, k, i) > 0 <==> exists j :: RepeatedAt(states, steps, k, i, j)
  {
    if k > 0 {
      var n := k - 1;
      RepeatsFound(states, steps, n, i);
      if RepeatsAck(states[n], steps[n], i) {
        assert RepeatedAt(states, steps, k, i, n);
      }
      if j: nat :| RepeatedAt(states, steps, n, i, j) && !steps[n].RestartLeader? {
        assert RepeatedAt(states, steps, k, i, j);
      }
      if j: nat :| RepeatedAt(states, steps, k, i, j) && j < n {
        assert RepeatedAt(states, steps, n, i, j);
      }
    }
  }

  /** A counter is the number of distinct followers that acknowledged exactly when no
      acknowledgement of its entry was booked twice since the leader last started. */
  lemma CountExactly(states: seq<State>, steps: seq<Step>, k: nat, i: nat)
    requires Run(states, steps) && k < |states| && i in states[k].ackCounts
    ensures states[k].ackCounts[i] == |Ackers(states[k].acks, i)| <==> !exists j :: RepeatedAt(states, steps, k, i, j)
    ensures states[k].ackCounts[i] >= |Ackers(states[k].acks, i)|
  {
    CountIsAckersAndRepeats(states, steps, k, i);
    RepeatsFound(states, steps, k, i);
  }

  /** Calls in index order never book an acknowledgement twice. */
  lemma OrderedNeverRepeats(states: seq<State>, steps: seq<Step>, k: nat, i: nat, j: nat)
    requires OrderedRun(states, steps) && k <= |steps|
    ensures !RepeatedAt(states, steps, k, i, j)
  {
    if j < k && IsBooking(steps[j]) && Enabled(states[j], steps[j]) {
      OrderedRunKeepsInv(states, steps, j);
      BookingIsNew(states[j], steps[j]);
    }
  }
}
