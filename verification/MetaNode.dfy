/** A metadata node: a log and the coordinator that follows its commits
    (src/bin/meta_server.cpp). */
module MetaNode {
  import opened Text
  import opened Coordinator
  import opened Payload
  import Wal

  /** The chunk table that a sequence of log entries builds from nothing. */
  function TableOf(entries: seq<Wal.Entry>): Table {
    if entries == [] then map[] else AfterEntry(TableOf(entries[..|entries| - 1]), entries[|entries| - 1])
  }

  function Commands(entries: seq<Wal.Entry>): (r: seq<Command>)
    ensures |r| == |entries|
  {
    seq(|entries|, i requires 0 <= i < |entries| =>
      var d := Decode(entries[i]); if d.Does? then d.command else NoChunkEffect)
  }

  /** Entries build the table of the commands they decode to, so the replay theorems about
      command logs hold of entry logs. */
  lemma {:induction false} TableOfCommands(entries: seq<Wal.Entry>)
    ensures TableOf(entries) == ApplyAll(map[], Commands(entries))
  {
    if entries != [] {
      var init := entries[..|entries| - 1];
      TableOfCommands(init);
      assert Commands(entries)[..|init|] == Commands(init);
    }
  }

  ghost predicate NoneThrows(entries: seq<Wal.Entry>) {
    forall i :: 0 <= i < |entries| ==> !Decode(entries[i]).Throws?
  }

  lemma TableNext(entries: seq<Wal.Entry>, i: nat)
    requires i < |entries|
    ensures TableOf(entries[..i + 1]) == AfterEntry(TableOf(entries[..i]), entries[i])
    ensures NoneThrows(entries[..i + 1]) <==> NoneThrows(entries[..i]) && !Decode(entries[i]).Throws?
  {
    var longer := entries[..i + 1];
    assert longer[..i] == entries[..i] && longer[i] == entries[i];
    assert forall k :: 0 <= k < i ==> longer[k] == entries[..i][k];
  }

  lemma PrefixThrows(entries: seq<Wal.Entry>, i: nat)
    requires i <= |entries| && !NoneThrows(entries[..i])
    ensures !NoneThrows(entries)
  {
    var k :| 0 <= k < i && Decode(entries[..i][k]).Throws?;
    assert Decode(entries[k]).Throws?;
  }

  /** Applies entries in order; an entry that throws ends it. */
  method ApplyEach(coord: MetaCoordinator, entries: seq<Wal.Entry>, fl: Floats, clock: nat -> nat) returns (threw: bool)
    requires coord.chunkTable == map[]
    modifies coord
    ensures threw <==> !NoneThrows(entries)
    ensures !threw ==> coord.chunkTable == TableOf(entries)
  {
    for i := 0 to |entries|
      invariant coord.chunkTable == TableOf(entries[..i]) && NoneThrows(entries[..i])
    {
      TableNext(entries, i);
      threw := ApplyWalEntry(coord, entries[i], fl, clock(i));
      if threw {
        PrefixThrows(entries, i + 1);
        return;
      }
    }
    assert entries[..|entries|] == entries;
    return false;
  }

  method CommitAndRead(wal: Wal.MetaWal, index: nat) returns (e: Wal.Entry)
    requires wal.Valid() && wal.committed < index <= wal.lastIndex
    modifies wal
    ensures wal.Valid() && wal.log == old(wal.log) && wal.committed == index && e == wal.log[index - 1]
  {
    wal.Commit(index);
    var read := wal.ReadEntry(index);
    return read.value;
  }

  class Node {
    const wal: Wal.MetaWal
    const coord: MetaCoordinator
    /** An entry threw out of the node. */
    var crashed: bool

    /** The live table is the table of the committed prefix of the log. */
    ghost predicate Valid()
      reads this, wal, coord
    {
      && !crashed && wal.Valid() && NoneThrows(wal.log[..wal.committed])
      && coord.chunkTable == TableOf(wal.log[..wal.committed])
    }

    /** Starting up: open the database and replay the committed entries. The node comes up
        exactly when none of them throws. */
    constructor Start(disk: Wal.Database, fl: Floats, clock: nat -> nat, ghost held: seq<Wal.Entry>, ghost position: nat)
      requires Wal.Durable(disk, held, position)
      ensures fresh(wal) && fresh(coord) && (crashed <==> !NoneThrows(held[..position]))
      ensures wal.Valid() && wal.db == disk && wal.log == held && wal.committed == position
      ensures !crashed ==> Valid()
    {
      wal := new Wal.MetaWal.Open(disk, held, position);
      coord := new MetaCoordinator();
      new;
      var entries := wal.Replay();
      crashed := ApplyEach(coord, entries, fl, clock);
    }

    /** Logging an entry without committing it changes no table. */
    method Log(kind: Wal.Byte, term: nat, payload: string)
      requires Valid() && Wal.Storable(Wal.Entry(term, kind, payload)) && wal.lastIndex + 1 < U64
      modifies wal
      ensures Valid() && wal.log == old(wal.log) + [Wal.Entry(term, kind, payload)]
      ensures wal.committed == old(wal.committed)
    {
      var index := wal.Append(kind, term, payload);
      assert wal.log[..wal.committed] == old(wal.log)[..wal.committed];
    }

    /** Committing the next entry applies it, unless it throws. */
    method CommitNext(fl: Floats, now: nat)
      requires Valid() && wal.committed < wal.lastIndex
      modifies this, wal, coord
      ensures wal.Valid() && wal.log == old(wal.log) && wal.committed == old(wal.committed) + 1
      ensures crashed <==> Decode(wal.log[old(wal.committed)]).Throws?
      ensures !crashed ==> Valid()
    {
      var index := wal.committed + 1;
      TableNext(wal.log, wal.committed);
      var e := CommitAndRead(wal, index);
      crashed := ApplyWalEntry(coord, e, fl, now);
    }
  }

  /** Restart recovery: after any run of in-order commits, reopening the node's database
      rebuilds the table of live application. */
  method Restart(node: Node, fl: Floats, clock: nat -> nat) returns (again: Node)
    requires node.Valid()
    ensures fresh(again) && again.Valid()
    ensures again.coord.chunkTable == node.coord.chunkTable
    ensures again.wal.log == node.wal.log && again.wal.committed == node.wal.committed
  {
    again := new Node.Start(node.wal.db, fl, clock, node.wal.log, node.wal.committed);
  }

  /** Out-of-order commits are excluded for a reason: when entry 1 timed out and entry 2
      committed, live application ran entry 2 only, but replay covers both. */
  lemma TimedOutEntryReplays(a: string, b: string, replicas: seq<string>)
    requires a != b && PutEncodable(a, 1, 1, 1, replicas) && PutEncodable(b, 1, 1, 1, replicas)
    ensures var first := Wal.Entry(1, Wal.PUT_CHUNK, PutPayload(a, 1, 1, 1, replicas));
      var second := Wal.Entry(1, Wal.PUT_CHUNK, PutPayload(b, 1, 1, 1, replicas));
      a in TableOf([first, second]) && a !in AfterEntry(map[], second)
  {
    PutPayloadExact(a, 1, 1, 1, replicas);
    PutPayloadExact(b, 1, 1, 1, replicas);
    var first := Wal.Entry(1, Wal.PUT_CHUNK, PutPayload(a, 1, 1, 1, replicas));
    var second := Wal.Entry(1, Wal.PUT_CHUNK, PutPayload(b, 1, 1, 1, replicas));
    assert [first, second][..1] == [first] && [first][..0] == [];
    assert TableOf([first, second]) == AfterEntry(AfterEntry(TableOf([]), first), second);
  }
}
