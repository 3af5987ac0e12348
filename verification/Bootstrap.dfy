/** Bootstrapping a follower from the leader's snapshot and the log after it
    (src/bin/meta_server.cpp). */
module Bootstrap {
  import opened Text
  import opened Coordinator
  import opened Payload
  import opened MetaNode
  import opened Replication
  import Wal
  import Snapshot
  import Streaming

  /** The table after applying entries to a given one. */
  function AfterEntries(t: Table, entries: seq<Wal.Entry>): Table {
    if entries == [] then t else AfterEntry(AfterEntries(t, entries[..|entries| - 1]), entries[|entries| - 1])
  }

  lemma {:induction false} AfterEntriesCommands(t: Table, entries: seq<Wal.Entry>)
    ensures AfterEntries(t, entries) == ApplyAll(t, Commands(entries))
  {
    if entries != [] {
      var init := entries[..|entries| - 1];
      AfterEntriesCommands(t, init);
      assert Commands(entries)[..|init|] == Commands(init);
    }
  }

  lemma CommandsPrefix(log: seq<Wal.Entry>, j: nat)
    requires j <= |log|
    ensures Commands(log[..j]) == Commands(log)[..j]
  {}

  lemma CommandsSuffix(log: seq<Wal.Entry>, k: nat)
    requires k <= |log|
    ensures Commands(log[k..]) == Commands(log)[k..]
  {}

  lemma PrefixAndSuffix(log: seq<Command>, k: nat, j: nat, prefix: seq<Command>, suffix: seq<Command>, t: Table)
    requires k <= j <= |log| && prefix == log[..j] && suffix == log[k..] && t == ApplyAll(map[], prefix)
    ensures ApplyAll(t, suffix) == ApplyAll(map[], log)
  {
    OverlappingReplay(log, k, j);
  }

  /** Overlapping replay for log entries: applying everything after position k to the table of
      any prefix at least that long gives the table of the whole log. */
  lemma EntriesOverlap(log: seq<Wal.Entry>, k: nat, j: nat)
    requires k <= j <= |log|
    ensures AfterEntries(TableOf(log[..j]), log[k..]) == TableOf(log)
  {
    var prefix, suffix := log[..j], log[k..];
    TableOfCommands(log);
    TableOfCommands(prefix);
    AfterEntriesCommands(TableOf(prefix), suffix);
    CommandsPrefix(log, j);
    CommandsSuffix(log, k);
    PrefixAndSuffix(Commands(log), k, j, Commands(prefix), Commands(suffix), TableOf(prefix));
  }

  /** The leader's log as the protocol keeps it. */
  ghost predicate LeaderLog(log: seq<Wal.Entry>) {
    AllInTerm(log) && NoneThrows(log) && |log| < U64 && forall i :: 0 <= i < |log| ==> Wal.Storable(log[i])
  }

  /** Takes one fetched entry: append, commit, apply. */
  method TakeEntry(f: MetaFollower, coord: MetaCoordinator, index: nat, e: Wal.Entry, fl: Floats, now: nat,
                   ghost leader: seq<Wal.Entry>)
    returns (ok: bool)
    requires f.wal.Valid() && f.currentTerm <= TERM && LeaderLog(leader) && f.wal.log <= leader
    requires 1 <= index <= |leader| && e == leader[index - 1]
    modifies f`currentTerm, f.wal, coord
    ensures f.wal.Valid() && f.currentTerm <= TERM && f.wal.log <= leader
    ensures ok <==> index <= |old(f.wal.log)| + 1
    ensures if index == |old(f.wal.log)| + 1 then |f.wal.log| == index else f.wal.log == old(f.wal.log)
    ensures coord.chunkTable == if ok then AfterEntry(old(coord.chunkTable), e) else old(coord.chunkTable)
  {
    PrefixAccepts(f.currentTerm, f.wal.log, leader, index);
    ok := f.HandleAppend(Append(e.term, index - 1, index, e));
    if ok {
      var applied := f.HandleCommit(index);
      var read := f.wal.ReadEntry(index);
      assert f.wal.log == leader[..|f.wal.log|];
      var threw := ApplyWalEntry(coord, read.value, fl, now);
    }
  }

  /** Bootstrapping from a snapshot that decodes to the leader's table at position j, at or
      after the position `lsn` written in it. When the follower's own log reaches `lsn`, or
      there is nothing after it, the follower ends with the table of the leader's whole log;
      otherwise the first fetched entry is refused and the table stays that of the snapshot. */
  method Bootstrap(f: MetaFollower, coord: MetaCoordinator, snapshot: string, fl: Floats,
                   clock: nat -> nat, entries: seq<Wal.Entry>, ghost leader: seq<Wal.Entry>, ghost lsn: nat, ghost j: nat)
    returns (installed: bool)
    requires f.wal.Valid() && f.currentTerm <= TERM && LeaderLog(leader) && f.wal.log <= leader
    requires lsn <= j <= |leader| && entries == leader[lsn..]
    requires var r := Snapshot.Decode(snapshot, fl);
      r.Ok? ==> r.value.lsn == lsn && Restored(r.value.chunks) == TableOf(leader[..j])
    modifies f`currentTerm, f.wal, coord
    ensures f.wal.Valid() && f.wal.log <= leader && |old(f.wal.log)| <= |f.wal.log|
    ensures installed <==> Snapshot.Decode(snapshot, fl).Ok?
    ensures !installed ==> coord.chunkTable == old(coord.chunkTable)
    ensures installed && (lsn <= |old(f.wal.log)| || lsn == |leader|) ==> coord.chunkTable == TableOf(leader)
    ensures installed && lsn <= |old(f.wal.log)| ==> f.wal.log == leader
    ensures installed && |old(f.wal.log)| < lsn ==>
      coord.chunkTable == TableOf(leader[..j]) && f.wal.log == old(f.wal.log)
  {
    var r := Snapshot.InstallSnapshot(coord, snapshot, fl);
    if r.Err? {
      return false;
    }
    ReplayLog(f, coord, r.value.lsn, entries, fl, clock, leader);
    EntriesOverlap(leader, lsn, j);
    assert lsn == |leader| ==> leader[..j] == leader;
    return true;
  }

  lemma AfterNext(t: Table, entries: seq<Wal.Entry>, i: nat)
    requires i < |entries|
    ensures AfterEntries(t, entries[..i + 1]) == AfterEntry(AfterEntries(t, entries[..i]), entries[i])
  {
    assert entries[..i + 1][..i] == entries[..i];
  }

  method TakeNth(f: MetaFollower, coord: MetaCoordinator, lsn: nat, entries: seq<Wal.Entry>, i: nat, fl: Floats, now: nat,
                 ghost leader: seq<Wal.Entry>)
    returns (ok: bool)
    requires f.wal.Valid() && f.currentTerm <= TERM && LeaderLog(leader) && f.wal.log <= leader
    requires lsn <= |leader| && entries == leader[lsn..] && i < |entries|
    modifies f`currentTerm, f.wal, coord
    ensures f.wal.Valid() && f.currentTerm <= TERM && f.wal.log <= leader
    ensures ok <==> lsn + i <= |old(f.wal.log)|
    ensures if lsn + i == |old(f.wal.log)| then |f.wal.log| == lsn + i + 1 else f.wal.log == old(f.wal.log)
    ensures coord.chunkTable == if ok then AfterEntry(old(coord.chunkTable), entries[i]) else old(coord.chunkTable)
  {
    ok := TakeEntry(f, coord, lsn + 1 + i, entries[i], fl, now, leader);
  }

  /** Takes the fetched entries in order until one is refused: all of them when the follower's
      log reaches the position before them, and none otherwise. */
  method ReplayLog(f: MetaFollower, coord: MetaCoordinator, lsn: nat, entries: seq<Wal.Entry>, fl: Floats, clock: nat -> nat,
                   ghost leader: seq<Wal.Entry>)
    requires f.wal.Valid() && f.currentTerm <= TERM && LeaderLog(leader) && f.wal.log <= leader
    requires lsn <= |leader| && entries == leader[lsn..]
    modifies f`currentTerm, f.wal, coord
    ensures f.wal.Valid()
    ensures lsn <= |old(f.wal.log)| ==>
      f.wal.log == leader && coord.chunkTable == AfterEntries(old(coord.chunkTable), entries)
    ensures |old(f.wal.log)| < lsn ==>
      f.wal.log == old(f.wal.log) && coord.chunkTable == old(coord.chunkTable)
  {
    ghost var table, known := coord.chunkTable, f.wal.log;
    var i := 0;
    var ok := true;
    while ok && i < |entries|
      invariant 0 <= i <= |entries| && f.wal.Valid() && f.currentTerm <= TERM && f.wal.log <= leader
      invariant if lsn <= |known| then ok && lsn + i <= |f.wal.log| else i == 0 && f.wal.log == known
      invariant coord.chunkTable == AfterEntries(table, entries[..i])
    {
      AfterNext(table, entries, i);
      ok := TakeNth(f, coord, lsn, entries, i, fl, clock(i), leader);
      if ok {
        i := i + 1;
      }
    }
    assert entries[..0] == [] && entries[..|entries|] == entries;
    if lsn <= |known| {
      WholePrefix(f.wal.log, leader);
    }
  }

  lemma WholePrefix(log: seq<Wal.Entry>, leader: seq<Wal.Entry>)
    requires log <= leader && |leader| <= |log|
    ensures log == leader
  {}

  /** The whole way from the leader's tables: it takes a snapshot at position `lsn` of tables
      that may already be further on, streams it in pieces, and the follower installs it and
      replays the log from there. The follower's log becomes the leader's exactly when it
      reached the snapshot's position before; then its table is that of the leader's whole log. */
  method BootstrapFromLeader(f: MetaFollower, coord: MetaCoordinator, fl: Floats, clock: nat -> nat, lsn: nat,
                             nodes: seq<NodeEntry>, chunks: seq<ChunkEntry>, entries: seq<Wal.Entry>,
                             ghost leader: seq<Wal.Entry>, ghost j: nat)
    returns (installed: bool)
    requires f.wal.Valid() && f.currentTerm <= TERM && LeaderLog(leader) && f.wal.log <= leader
    requires lsn <= j <= |leader| && entries == leader[lsn..]
    requires Snapshot.SnapshotOk(lsn, nodes, chunks, fl) && Snapshot.Lists(chunks, TableOf(leader[..j]))
    modifies f`currentTerm, f.wal, coord
    ensures installed && f.wal.Valid()
    ensures f.wal.log == leader <==> lsn <= |old(f.wal.log)|
    ensures coord.chunkTable == TableOf(if lsn <= |old(f.wal.log)| then leader else leader[..j])
  {
    var buf := Snapshot.TakeSnapshot(lsn, nodes, chunks, fl);
    Snapshot.TableRoundTrip(lsn, nodes, chunks, TableOf(leader[..j]), fl);
    var received := Streaming.TransferSnapshot(buf, lsn);
    assert buf != "" by {
      assert Snapshot.Decode("", fl) == Snapshot.Err(Snapshot.TooSmall);
    }
    installed := Bootstrap(f, coord, received.value, fl, clock, entries, leader, lsn, j);
  }
}
