/** The write-ahead log of a metadata node over a durable key-value database
    (src/meta/meta_wal.cpp). */
module Wal {
  import opened Text

  type Byte = n: nat | n < 256

  const PUT_CHUNK: Byte := 0
  const DELETE_CHUNK: Byte := 1
  const RECONFIGURE_START: Byte := 2
  const RECONFIGURE_COMMIT: Byte := 3
  const NODE_HEARTBEAT: Byte := 4
  const POLICY_UPDATE: Byte := 5

  datatype Entry = Entry(term: nat, kind: Byte, payload: string)

  // ---------------------------------------------------------------- entry format

  /** Type byte, 8-byte term, 4-byte payload length, payload; the length wraps at 32 bits
      and only that many payload bytes are stored. */
  function EncodeEntry(e: Entry): string {
    var length := |e.payload| % U32;
    [e.kind as char] + Field64(e.term) + Field32(length) + e.payload[..length]
  }

  function DecodeEntry(raw: string): Entry
    requires |raw| >= 13
  {
    var length := FromBigEndian(raw[9..13]);
    var end := if 13 + length <= |raw| then 13 + length else |raw|;
    Entry(FromBigEndian(raw[1..9]), raw[0] as nat % 256, raw[13..end])
  }

  lemma Layout(kind: string, term: string, length: string, payload: string)
    requires |kind| == 1 && |term| == 8 && |length| == 4
    ensures var raw := kind + term + length + payload;
      raw[..1] == kind && raw[1..9] == term && raw[9..13] == length && raw[13..] == payload
  {}

  /** Decoding inverts encoding exactly for payloads whose length fits 32 bits. */
  lemma EntryRoundTrip(e: Entry)
    requires e.term < U64
    ensures |EncodeEntry(e)| >= 13
    ensures DecodeEntry(EncodeEntry(e)) == e <==> |e.payload| < U32
  {
    var length := |e.payload| % U32;
    var raw := EncodeEntry(e);
    Layout([e.kind as char], Field64(e.term), Field32(length), e.payload[..length]);
    Field64RoundTrip(e.term);
    Field32RoundTrip(length);
    assert DecodeEntry(raw).payload == e.payload[..length];
  }

  predicate Storable(e: Entry) {
    e.term < U64 && |e.payload| < U32
  }

  // ---------------------------------------------------------------- database layout

  datatype Key = EntryKey(index: nat) | CommitKey(index: nat) | LastIndexKey | CommittedKey

  /** The database key as bytes. */
  function KeyBytes(k: Key): string {
    match k
    case EntryKey(i) => "wal/" + Field64(i)
    case CommitKey(i) => "cmt/" + Field64(i)
    case LastIndexKey => "meta/last_index"
    case CommittedKey => "meta/committed"
  }

  /** Keys with 64-bit indices never share their bytes, so the database can be read as a map
      from `Key`. */
  lemma KeyBytesInjective(j: Key, k: Key)
    requires j.EntryKey? || j.CommitKey? ==> j.index < U64
    requires k.EntryKey? || k.CommitKey? ==> k.index < U64
    requires KeyBytes(j) == KeyBytes(k)
    ensures j == k
  {
    assert KeyBytes(j)[0] == KeyBytes(k)[0] && KeyBytes(j)[5] == KeyBytes(k)[5];
    if j.EntryKey? || j.CommitKey? {
      assert KeyBytes(j)[4..] == Field64(j.index) && KeyBytes(k)[4..] == Field64(k.index);
      Field64RoundTrip(j.index);
      Field64RoundTrip(k.index);
    }
  }

  type Database = map<Key, string>

  ghost predicate Counter(db: Database, key: Key, n: nat) {
    if key in db then db[key] == Field64(n) else n == 0
  }

  ghost predicate EntryAt(db: Database, log: seq<Entry>, i: nat)
    requires 1 <= i <= |log|
  {
    Storable(log[i - 1]) && EntryKey(i) in db && db[EntryKey(i)] == EncodeEntry(log[i - 1])
  }

  /** The database durably holds this log and this commit position. */
  ghost predicate Durable(db: Database, log: seq<Entry>, committed: nat) {
    && committed <= |log| < U64 && EntryKey(0) !in db
    && (forall i :: 1 <= i <= |log| ==> EntryAt(db, log, i))
    && Counter(db, LastIndexKey, |log|) && Counter(db, CommittedKey, committed)
  }

  /** A crash between writing an entry and advancing the stored last index, or between the
      commit mark and the stored commit position, leaves the old log and position durable. */
  lemma CrashLeavesOldLog(db: Database, log: seq<Entry>, committed: nat, value: string, i: nat)
    requires Durable(db, log, committed)
    ensures Durable(db[EntryKey(|log| + 1) := value], log, committed)
    ensures Durable(db[CommitKey(i) := value], log, committed)
  {
    OtherKeyWritten(db, log, committed, EntryKey(|log| + 1), value);
    OtherKeyWritten(db, log, committed, CommitKey(i), value);
  }

  lemma OtherKeyWritten(db: Database, log: seq<Entry>, committed: nat, key: Key, value: string)
    requires Durable(db, log, committed)
    requires key == EntryKey(|log| + 1) || key.CommitKey?
    ensures Durable(db[key := value], log, committed)
  {
    var written := db[key := value];
    forall k | 1 <= k <= |log| ensures EntryAt(written, log, k) {
      assert EntryAt(db, log, k);
      assert written[EntryKey(k)] == db[EntryKey(k)];
    }
    assert Counter(written, LastIndexKey, |log|) && Counter(written, CommittedKey, committed);
  }

  lemma AppendIsDurable(db: Database, log: seq<Entry>, committed: nat, e: Entry, index: nat)
    requires Durable(db, log, committed) && index == |log| + 1 < U64 && Storable(e)
    ensures Durable(db[EntryKey(index) := EncodeEntry(e)][LastIndexKey := Field64(index)], log + [e], committed)
  {
    var raw, count := EncodeEntry(e), Field64(index);
    var db', log' := db[EntryKey(index) := raw][LastIndexKey := count], log + [e];
    forall k | 1 <= k <= |log'| ensures EntryAt(db', log', k) {
      if k <= |log| {
        assert EntryAt(db, log, k);
        assert log'[k - 1] == log[k - 1];
        assert db'[EntryKey(k)] == db[EntryKey(k)];
      } else {
        assert log'[k - 1] == e;
      }
    }
    assert Counter(db', LastIndexKey, |log'|);
    assert Counter(db', CommittedKey, committed);
  }

  lemma CommitIsDurable(db: Database, log: seq<Entry>, committed: nat, i: nat)
    requires Durable(db, log, committed) && i <= |log|
    ensures Durable(db[CommitKey(i) := "1"][CommittedKey := Field64(i)], log, i)
  {
    var db' := db[CommitKey(i) := "1"][CommittedKey := Field64(i)];
    forall k | 1 <= k <= |log| ensures EntryAt(db', log, k) {
      assert EntryAt(db, log, k);
    }
  }

  // ---------------------------------------------------------------- the log

  class MetaWal {
    var db: Database
    var lastIndex: nat
    var committed: nat
    ghost var log: seq<Entry>

    ghost predicate Valid()
      reads this
    {
      Durable(db, log, committed) && lastIndex == |log|
    }

    /** Opening a database recovers exactly what it durably holds. */
    constructor Open(disk: Database, ghost held: seq<Entry>, ghost position: nat)
      ensures db == disk
      ensures Durable(disk, held, position) ==> Valid() && log == held && committed == position
    {
      db, log := disk, held;
      lastIndex := if LastIndexKey in disk then FromBigEndian(disk[LastIndexKey]) else 0;
      committed := if CommittedKey in disk then FromBigEndian(disk[CommittedKey]) else 0;
      new;
      if Durable(disk, held, position) {
        Field64RoundTrip(|held|);
        Field64RoundTrip(position);
      }
    }

    /** Appends at the next index; the 64-bit index wraps. */
    method Append(kind: Byte, term: nat, payload: string) returns (index: nat)
      requires Valid()
      modifies this
      ensures committed == old(committed)
      ensures index == lastIndex == if old(lastIndex) + 1 < U64 then old(lastIndex) + 1 else 0
      ensures Storable(Entry(term, kind, payload)) && old(lastIndex) + 1 < U64 ==>
        Valid() && log == old(log) + [Entry(term, kind, payload)]
    {
      var e := Entry(term, kind, payload);
      lastIndex := if lastIndex + 1 < U64 then lastIndex + 1 else 0;
      index := lastIndex;
      var raw, count := EncodeEntry(e), Field64(index);
      var written := db[EntryKey(index) := raw];
      var counted := written[LastIndexKey := count];
      if Storable(e) && index == |log| + 1 {
        AppendIsDurable(db, log, committed, e, index);
      }
      db := written;
      db := counted;
      log := log + [e];
    }

    method Commit(index: nat)
      requires Valid() && index <= lastIndex
      modifies this
      ensures Valid() && log == old(log)
      ensures committed == if index > old(committed) then index else old(committed)
    {
      if index > committed {
        CommitIsDurable(db, log, committed, index);
      } else {
        CrashLeavesOldLog(db, log, committed, "1", index);
      }
      db := db[CommitKey(index) := "1"];
      if index > committed {
        committed := index;
        db := db[CommittedKey := Field64(committed)];
      }
    }

    method ReadEntry(index: nat) returns (r: Option<Entry>)
      requires Valid()
      ensures 1 <= index <= lastIndex ==> r == Some(log[index - 1])
      ensures index == 0 ==> r.None?
    {
      if 1 <= index <= lastIndex {
        assert EntryAt(db, log, index);
        EntryRoundTrip(log[index - 1]);
      }
      if EntryKey(index) !in db || |db[EntryKey(index)]| < 13 {
        return None;
      }
      return Some(DecodeEntry(db[EntryKey(index)]));
    }

    /** Hands over the committed entries in order. */
    method Replay() returns (entries: seq<Entry>)
      requires Valid()
      ensures entries == log[..committed]
    {
      entries := [];
      for i := 1 to committed + 1
        invariant entries == log[..i - 1]
      {
        var e := ReadEntry(i);
        if e.Some? {
          entries := entries + [e.value];
        }
      }
    }
  }
}
