/** The two ends of log replication: the follower's append check
    (src/meta/meta_follower.cpp) and the leader's bookkeeping, quorum wait and catch-up loop
    (src/meta/meta_replication.cpp). */
module Replication {
  import opened Text
  import Wal

  const TERM: nat := 1

  /** An AppendEntry request. */
  datatype Append = Append(leaderTerm: nat, prevIndex: nat, index: nat, entry: Wal.Entry)

  datatype Verdict = StaleTerm | Unreadable | Conflict | Duplicate | Gap | PrevMismatch | Appended

  predicate Accepts(v: Verdict) {
    v.Unreadable? || v.Duplicate? || v.Appended?
  }

  /** The branch a follower takes on a request. */
  function Judge(term: nat, log: seq<Wal.Entry>, m: Append): Verdict {
    if m.leaderTerm < term then StaleTerm
    else if m.index <= |log| then
      if m.index == 0 then Unreadable
      else if log[m.index - 1] != m.entry then Conflict
      else Duplicate
    else if m.index > |log| + 1 then Gap
    else if m.prevIndex != |log| then PrevMismatch
    else Appended
  }

  function LogAfter(term: nat, log: seq<Wal.Entry>, m: Append): seq<Wal.Entry> {
    if Judge(term, log, m).Appended? then log + [m.entry] else log
  }

  function TermAfter(term: nat, m: Append): nat {
    if m.leaderTerm < term then term else m.leaderTerm
  }

  /** The request the leader sends for entry i of its log. */
  function RequestFor(log: seq<Wal.Entry>, i: nat): Append
    requires 1 <= i <= |log|
  {
    Append(log[i - 1].term, i - 1, i, log[i - 1])
  }

  function AckCount(counts: map<nat, nat>, i: nat): map<nat, nat> {
    if i in counts then counts[i := counts[i] + 1] else counts
  }

  function MatchAfter(match_: map<string, nat>, addr: string, i: nat): map<string, nat> {
    if addr in match_ && match_[addr] < i then match_[addr := i] else match_
  }

  /** Followers that must acknowledge, besides the leader itself. */
  function Majority(followers: nat): nat {
    (followers + 1) / 2
  }

  /** It is the least number that makes the leader and its ackers a strict majority of all nodes. */
  lemma MajorityIsLeast(followers: nat, acks: nat)
    ensures 2 * (1 + acks) > followers + 1 <==> acks >= Majority(followers)
    ensures 2 * Majority(followers) <= followers + 1
  {}

  ghost predicate AllInTerm(log: seq<Wal.Entry>) {
    forall i :: 0 <= i < |log| ==> log[i].term == TERM
  }

  /** A follower whose log is a prefix of the leader's accepts any entry it already has and
      the next one, keeping its log a prefix; anything later is a gap. */
  lemma PrefixAccepts(term: nat, log: seq<Wal.Entry>, leader: seq<Wal.Entry>, i: nat)
    requires log <= leader && AllInTerm(leader) && term <= TERM && 1 <= i <= |leader|
    ensures var m := RequestFor(leader, i);
      && Judge(term, log, m) == (if i <= |log| then Duplicate else if i == |log| + 1 then Appended else Gap)
      && LogAfter(term, log, m) == (if i == |log| + 1 then leader[..i] else log)
      && LogAfter(term, log, m) <= leader && TermAfter(term, m) == TERM
  {
    assert log == leader[..|log|];
  }

  /** Bootstrapping asks for the entries after the snapshot's log position. The follower takes
      the first of them exactly when its own log already reaches that position: a snapshot does
      not advance the log, so an empty follower is refused and must be caught up from entry 1. */
  lemma BootstrapNeedsLog(term: nat, log: seq<Wal.Entry>, leader: seq<Wal.Entry>, lsn: nat)
    requires log <= leader && AllInTerm(leader) && term <= TERM && lsn < |leader|
    ensures Accepts(Judge(term, log, RequestFor(leader, lsn + 1))) <==> lsn <= |log|
  {
    PrefixAccepts(term, log, leader, lsn + 1);
  }

  // ---------------------------------------------------------------- follower

  class MetaFollower {
    const wal: Wal.MetaWal
    var currentTerm: nat

    constructor (w: Wal.MetaWal)
      ensures wal == w && currentTerm == 0
    {
      wal, currentTerm := w, 0;
    }

    method HandleAppend(m: Append) returns (ok: bool)
      requires wal.Valid() && Wal.Storable(m.entry) && m.index < U64
      modifies this`currentTerm, wal
      ensures wal.Valid() && wal.committed == old(wal.committed)
      ensures ok <==> Accepts(Judge(old(currentTerm), old(wal.log), m))
      ensures wal.log == LogAfter(old(currentTerm), old(wal.log), m)
      ensures currentTerm == TermAfter(old(currentTerm), m)
    {
      if m.leaderTerm < currentTerm {
        return false;
      }
      ghost var verdict := Judge(currentTerm, wal.log, m);
      currentTerm := m.leaderTerm;
      if m.index <= wal.lastIndex {
        ok := AgreesWithExisting(m);
        assert ok <==> verdict.Unreadable? || verdict.Duplicate?;
        return;
      }
      if m.index > wal.lastIndex + 1 || m.prevIndex != wal.lastIndex {
        assert verdict.Gap? || verdict.PrevMismatch?;
        return false;
      }
      assert verdict.Appended?;
      AppendNext(m.entry);
      return true;
    }

    method AppendNext(e: Wal.Entry)
      requires wal.Valid() && Wal.Storable(e) && wal.lastIndex + 1 < U64
      modifies wal
      ensures wal.Valid() && wal.committed == old(wal.committed) && wal.log == old(wal.log) + [e]
    {
      var index := wal.Append(e.kind, e.term, e.payload);
    }

    /** An index already in the log: accepted unless it holds another entry. */
    method AgreesWithExisting(m: Append) returns (ok: bool)
      requires wal.Valid() && m.index <= wal.lastIndex
      ensures ok <==> m.index == 0 || wal.log[m.index - 1] == m.entry
    {
      var existing := wal.ReadEntry(m.index);
      return existing.None? || existing.value == m.entry;
    }

    method HandleCommit(index: nat) returns (applied: bool)
      requires wal.Valid()
      modifies wal
      ensures wal.Valid() && wal.log == old(wal.log)
      ensures applied <==> index <= |old(wal.log)|
      ensures wal.committed == if applied && index > old(wal.committed) then index else old(wal.committed)
    {
      if index > wal.lastIndex {
        return false;
      }
      wal.Commit(index);
      return true;
    }
  }

  // ---------------------------------------------------------------- leader

  datatype WriteResult = Ok | Unavailable

  /** How many acknowledgements of entry i arrive in these polls. */
  function Arrivals(polls: seq<seq<(string, nat)>>, i: nat): nat {
    if polls == [] then 0
    else Arrivals(polls[..|polls| - 1], i) + CountFor(polls[|polls| - 1], i)
  }

  function CountFor(acks: seq<(string, nat)>, i: nat): nat {
    if acks == [] then 0
    else CountFor(acks[..|acks| - 1], i) + if acks[|acks| - 1].1 == i then 1 else 0
  }

  class MetaReplication {
    const wal: Wal.MetaWal
    var matchIndex: map<string, nat>
    var ackCounts: map<nat, nat>

    constructor (w: Wal.MetaWal)
      ensures wal == w && matchIndex == map[] && ackCounts == map[]
    {
      wal, matchIndex, ackCounts := w, map[], map[];
    }

    method AddFollower(addr: string)
      modifies this`matchIndex
      ensures matchIndex == old(matchIndex)[addr := 0]
    {
      matchIndex := matchIndex[addr := 0];
    }

    method RecordAck(addr: string, index: nat)
      modifies this
      ensures ackCounts == AckCount(old(ackCounts), index)
      ensures matchIndex == MatchAfter(old(matchIndex), addr, index)
    {
      if index in ackCounts {
        ackCounts := ackCounts[index := ackCounts[index] + 1];
      }
      if addr in matchIndex {
        matchIndex := matchIndex[addr := if matchIndex[addr] < index then index else matchIndex[addr]];
      }
    }

    method ReceiveAcks(acks: seq<(string, nat)>, index: nat)
      requires index in ackCounts
      modifies this
      ensures index in ackCounts && ackCounts[index] == old(ackCounts[index]) + CountFor(acks, index)
      ensures matchIndex.Keys == old(matchIndex.Keys)
    {
      for k := 0 to |acks|
        invariant index in ackCounts && ackCounts[index] == old(ackCounts[index]) + CountFor(acks[..k], index)
        invariant matchIndex.Keys == old(matchIndex.Keys)
      {
        assert acks[..k + 1][..k] == acks[..k];
        RecordAck(acks[k].0, acks[k].1);
      }
      assert acks[..|acks|] == acks;
    }

    /** Looks at the counter of an entry after each batch of acknowledgements. */
    method AwaitQuorum(index: nat, needed: nat, polls: seq<seq<(string, nat)>>) returns (reached: bool)
      requires index in ackCounts && ackCounts[index] == 0
      modifies this
      ensures reached <==> exists k :: 0 < k <= |polls| && Arrivals(polls[..k], index) >= needed
      ensures matchIndex.Keys == old(matchIndex.Keys)
    {
      for k := 0 to |polls|
        invariant index in ackCounts && ackCounts[index] == Arrivals(polls[..k], index)
        invariant forall j :: 0 < j <= k ==> Arrivals(polls[..j], index) < needed
        invariant matchIndex.Keys == old(matchIndex.Keys)
      {
        ReceiveAcks(polls[k], index);
        assert polls[..k + 1][..k] == polls[..k];
        if ackCounts[index] >= needed {
          return true;
        }
      }
      return false;
    }

    /** Logs an entry and waits for a quorum. `polls` holds the acknowledgements that arrive
        before each look at the counter; it ends at the deadline. The write succeeds exactly
        when some look finds a majority, and only then commits. */
    method Write(kind: Wal.Byte, payload: string, polls: seq<seq<(string, nat)>>) returns (result: WriteResult)
      requires wal.Valid() && wal.lastIndex + 1 < U64 && |payload| < U32
      modifies this, wal
      ensures wal.Valid() && wal.log == old(wal.log) + [Wal.Entry(TERM, kind, payload)]
      ensures result.Ok? <==>
        exists k :: 0 < k <= |polls| && Arrivals(polls[..k], |wal.log|) >= Majority(|old(matchIndex)|)
      ensures wal.committed == if result.Ok? then |wal.log| else old(wal.committed)
    {
      var needed := Majority(|matchIndex|);
      var index := wal.Append(kind, TERM, payload);
      ackCounts := ackCounts[index := 0];
      var reached := AwaitQuorum(index, needed, polls);
      if !reached {
        return Unavailable;
      }
      wal.Commit(index);
      return Ok;
    }

    /** The leader's entries and bookkeeping fit together with a follower's node. */
    ghost predicate Tracks(addr: string, f: MetaFollower)
      reads this, wal, f, f.wal
    {
      && f.wal != wal && wal.Valid() && f.wal.Valid()
      && AllInTerm(wal.log) && f.currentTerm <= TERM && f.wal.log <= wal.log
      && addr in matchIndex && matchIndex[addr] <= |f.wal.log|
    }

    /** Sends the request for an entry the follower has or needs next: it is accepted. */
    method Send(addr: string, f: MetaFollower, index: nat) returns (ok: bool)
      requires Tracks(addr, f) && 1 <= index <= |wal.log| && index <= |f.wal.log| + 1
      modifies f`currentTerm, f.wal
      ensures Tracks(addr, f) && ok
      ensures |f.wal.log| == if index > |old(f.wal.log)| then index else |old(f.wal.log)|
      ensures f.wal.committed == old(f.wal.committed)
    {
      var e := wal.ReadEntry(index);
      assert Wal.EntryAt(wal.db, wal.log, index);
      PrefixAccepts(f.currentTerm, f.wal.log, wal.log, index);
      ok := f.HandleAppend(Append(e.value.term, index - 1, index, e.value));
    }

    /** Appends by other replication threads: they bring the follower up to `upTo`. */
    method OtherAppends(addr: string, f: MetaFollower, upTo: nat)
      requires Tracks(addr, f)
      modifies f`currentTerm, f.wal
      ensures Tracks(addr, f) && |f.wal.log| >= |old(f.wal.log)|
      ensures f.wal.committed == old(f.wal.committed)
    {
      while f.wal.lastIndex < upTo && f.wal.lastIndex < wal.lastIndex
        invariant Tracks(addr, f) && |f.wal.log| >= |old(f.wal.log)|
        invariant f.wal.committed == old(f.wal.committed)
        decreases wal.lastIndex - f.wal.lastIndex
      {
        var ok := Send(addr, f, f.wal.lastIndex + 1);
      }
    }

    /** Books an acknowledgement and sends the commit that follows it. */
    method Acknowledge(addr: string, f: MetaFollower, index: nat)
      requires Tracks(addr, f) && index <= |f.wal.log|
      modifies this, f.wal
      ensures Tracks(addr, f) && f.wal.log == old(f.wal.log)
      ensures matchIndex == MatchAfter(old(matchIndex), addr, index)
    {
      RecordAck(addr, index);
      var applied := f.HandleCommit(index);
    }

    /** The catch-up loop towards `target`. Before the request for entry i other threads may
        extend the follower to `others(i)`; `delivered(i)` and `answered(i)` say whether its
        RPC gets through. No delivered request is ever rejected, and if no RPC fails both the
        follower's log and its match index reach the target. */
    method CatchUp(addr: string, f: MetaFollower, target: nat,
                   others: nat -> nat, delivered: nat -> bool, answered: nat -> bool)
      returns (rejected: bool, finished: bool)
      requires Tracks(addr, f) && target <= |wal.log|
      modifies this, f`currentTerm, f.wal
      ensures Tracks(addr, f) && |f.wal.log| >= |old(f.wal.log)|
      ensures !rejected
      ensures (forall i: nat :: delivered(i) && answered(i)) ==> finished
      ensures finished ==> |f.wal.log| >= target && matchIndex[addr] >= target
    {
      rejected, finished := false, true;
      var index := matchIndex[addr] + 1;
      while index <= target
        invariant Tracks(addr, f) && |f.wal.log| >= |old(f.wal.log)|
        invariant index == matchIndex[addr] + 1 && !rejected && finished
        decreases target - index
      {
        OtherAppends(addr, f, others(index));
        if !delivered(index) {
          return false, false;
        }
        var ok := Send(addr, f, index);
        if !answered(index) {
          return !ok, false;
        }
        if !ok {
          return true, false;
        }
        Acknowledge(addr, f, index);
        index := index + 1;
      }
    }
  }
}
