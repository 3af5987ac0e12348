/** The text payloads of log entries: the encoders of the leader (src/meta/meta_rpc.cpp,
    src/meta/reconfig_driver.cpp) and the decoder that applies an entry to a coordinator
    (src/bin/meta_server.cpp). */
module Payload {
  import opened Text
  import opened Coordinator
  import Wal

  // ---------------------------------------------------------------- cutting text

  method SplitNonEmpty(s: string, delim: char) returns (out: seq<string>)
    ensures out == Pieces(s, delim, false)
  {
    out := [];
    var cur := "";
    for i := 0 to |s|
      invariant Scanned(out, cur) == Scan(s[..i], delim, false)
    {
      assert s[..i + 1][..i] == s[..i];
      if s[i] == delim {
        if cur != "" {
          out := out + [cur];
        }
        cur := "";
      } else {
        cur := cur + [s[i]];
      }
    }
    assert s[..|s|] == s;
    if cur != "" {
      out := out + [cur];
    }
  }

  // ---------------------------------------------------------------- encoding

  function PutPayload(id: string, size: nat, rf: int, version: nat, replicas: seq<string>): string {
    id + "|" + ToDecimal(size) + "|" + IntToText(rf) + "|" + ToDecimal(version) + "|" + Terminated(replicas, ',')
  }

  function StartPayload(id: string, oldSet: seq<string>, newSet: seq<string>): string {
    id + "|" + Terminated(oldSet, ',') + "|" + Terminated(newSet, ',')
  }

  function CommitPayload(id: string, newSet: seq<string>): string {
    id + "|" + Terminated(newSet, ',')
  }

  method AppendList(p: string, nodes: seq<string>) returns (out: string)
    ensures out == p + Terminated(nodes, ',')
  {
    out := p;
    for i := 0 to |nodes|
      invariant out == p + Terminated(nodes[..i], ',')
    {
      assert nodes[..i + 1][..i] == nodes[..i];
      out := out + (nodes[i] + ",");
    }
    assert nodes[..|nodes|] == nodes;
  }

  method EncodeReconfigStart(id: string, oldSet: seq<string>, newSet: seq<string>) returns (p: string)
    ensures p == StartPayload(id, oldSet, newSet)
  {
    p := AppendList(id + "|", oldSet);
    p := AppendList(p + "|", newSet);
  }

  method EncodeReconfigCommit(id: string, newSet: seq<string>) returns (p: string)
    ensures p == CommitPayload(id, newSet)
  {
    p := AppendList(id + "|", newSet);
  }

  // ---------------------------------------------------------------- decoding

  /** Applying an entry runs a command, is skipped with a warning, or throws out of the
      unguarded number conversions. */
  datatype Decoded = Does(command: Command) | Malformed | Throws

  function DecodePut(payload: string): Decoded {
    var parts := Pieces(payload, '|', false);
    if |parts| < 5 then Malformed
    else
      var size, rf, version := Stoull(parts[1]), Stoi(parts[2]), Stoull(parts[3]);
      if size.None? || rf.None? || version.None? then Throws
      else Does(PutChunk(parts[0], size.value, rf.value, Pieces(parts[4], ',', false), version.value))
  }

  function DecodeStart(payload: string): Decoded {
    var parts := Pieces(payload, '|', false);
    if |parts| < 3 then Malformed
    else Does(ReconfigStart(parts[0], Pieces(parts[1], ',', false), Pieces(parts[2], ',', false)))
  }

  function DecodeCommit(payload: string): Decoded {
    var parts := Pieces(payload, '|', false);
    if |parts| < 2 then Malformed
    else Does(ReconfigCommit(parts[0], Pieces(parts[1], ',', false)))
  }

  function Decode(e: Wal.Entry): Decoded {
    if e.kind == Wal.PUT_CHUNK then DecodePut(e.payload)
    else if e.kind == Wal.DELETE_CHUNK then Does(DeleteChunk(e.payload))
    else if e.kind == Wal.RECONFIGURE_START then DecodeStart(e.payload)
    else if e.kind == Wal.RECONFIGURE_COMMIT then DecodeCommit(e.payload)
    else Does(NoChunkEffect)
  }

  // ---------------------------------------------------------------- round trips

  ghost predicate ValidId(id: string) {
    id != "" && Free(id, '|')
  }

  ghost predicate ValidReplicas(replicas: seq<string>) {
    replicas != [] && forall i :: 0 <= i < |replicas| ==>
      replicas[i] != "" && Free(replicas[i], ',') && Free(replicas[i], '|')
  }

  lemma ListRoundTrip(replicas: seq<string>)
    requires ValidReplicas(replicas)
    ensures Terminated(replicas, ',') != "" && Free(Terminated(replicas, ','), '|')
    ensures Pieces(Terminated(replicas, ','), ',', false) == replicas
  {
    TerminatedFree(replicas, ',', '|');
    PiecesOfTerminated(replicas, "", ',', false);
    assert Terminated(replicas, ',') + "" == Terminated(replicas, ',');
  }

  lemma TerminatedOne(a: string)
    ensures Terminated([a], '|') == a + "|"
  {
    TerminatedSnoc([], a, '|');
    assert [] + [a] == [a];
  }

  lemma TerminatedTwo(a: string, b: string)
    ensures Terminated([a, b], '|') == a + "|" + b + "|"
  {
    TerminatedOne(a);
    TerminatedSnoc([a], b, '|');
    assert [a] + [b] == [a, b];
  }

  lemma TerminatedFour(a: string, b: string, c: string, d: string)
    ensures Terminated([a, b, c, d], '|') == a + "|" + b + "|" + c + "|" + d + "|"
  {
    TerminatedTwo(a, b);
    TerminatedSnoc([a, b], c, '|');
    assert [a, b] + [c] == [a, b, c];
    TerminatedSnoc([a, b, c], d, '|');
    assert [a, b, c] + [d] == [a, b, c, d];
  }

  ghost predicate PutEncodable(id: string, size: nat, rf: int, version: nat, replicas: seq<string>) {
    ValidId(id) && ValidReplicas(replicas) && size < U64 && version < U64 && IsInt32(rf)
  }

  lemma PutDecodes(id: string, size: nat, rf: int, version: nat, replicas: seq<string>)
    requires PutEncodable(id, size, rf, version, replicas)
    ensures DecodePut(PutPayload(id, size, rf, version, replicas)) == Does(PutChunk(id, size, rf, replicas, version))
  {
    var fields, list := [id, ToDecimal(size), IntToText(rf), ToDecimal(version)], Terminated(replicas, ',');
    TerminatedFour(id, ToDecimal(size), IntToText(rf), ToDecimal(version));
    NumbersFree(size, rf, '|');
    NumbersFree(version, rf, '|');
    ListRoundTrip(replicas);
    PiecesOfTerminated(fields, list, '|', false);
    StoullRoundTrip(size);
    StoiRoundTrip(rf);
    StoullRoundTrip(version);
  }

  /** Decoded lists are non-empty names without separators, and so is the list of a payload
      whose last field is decoded as it was encoded. */
  lemma DecodedListValid(field: string, list: seq<string>)
    requires Free(field, '|') && list == Pieces(field, ',', false) && list != []
    ensures ValidReplicas(list)
  {
    PiecesClean(field, ',', false);
    forall i | 0 <= i < |list| ensures list[i] != "" && Free(list[i], ',') && Free(list[i], '|') {
      assert list[i] in list;
    }
  }

  lemma EmptyListCutsShort(fields: seq<string>)
    requires FieldsOk(fields, '|', false)
    ensures Pieces(Terminated(fields, '|') + Terminated([], ','), '|', false) == fields
  {
    PiecesOfTerminated(fields, "", '|', false);
  }

  /** A PUT entry does to every coordinator what the direct transition does exactly when the
      id and the replica names are non-empty, separator-free and the numbers fit. */
  lemma PutPayloadExact(id: string, size: nat, rf: int, version: nat, replicas: seq<string>)
    ensures DecodePut(PutPayload(id, size, rf, version, replicas)) == Does(PutChunk(id, size, rf, replicas, version))
      <==> PutEncodable(id, size, rf, version, replicas)
  {
    var payload := PutPayload(id, size, rf, version, replicas);
    if DecodePut(payload) == Does(PutChunk(id, size, rf, replicas, version)) {
      var parts := Pieces(payload, '|', false);
      PiecesClean(payload, '|', false);
      assert parts[0] in parts && parts[4] in parts;
      if replicas == [] {
        TerminatedFour(id, ToDecimal(size), IntToText(rf), ToDecimal(version));
        NumbersFree(size, rf, '|');
        NumbersFree(version, rf, '|');
        EmptyListCutsShort([id, ToDecimal(size), IntToText(rf), ToDecimal(version)]);
      } else {
        DecodedListValid(parts[4], replicas);
      }
    }
    if PutEncodable(id, size, rf, version, replicas) {
      PutDecodes(id, size, rf, version, replicas);
    }
  }

  lemma StartDecodes(id: string, oldSet: seq<string>, newSet: seq<string>)
    requires ValidId(id) && ValidReplicas(oldSet) && ValidReplicas(newSet)
    ensures DecodeStart(StartPayload(id, oldSet, newSet)) == Does(ReconfigStart(id, oldSet, newSet))
  {
    ListRoundTrip(oldSet);
    ListRoundTrip(newSet);
    TerminatedTwo(id, Terminated(oldSet, ','));
    PiecesOfTerminated([id, Terminated(oldSet, ',')], Terminated(newSet, ','), '|', false);
  }

  /** The names of a decoded list are clean, so its text has no field separator. */
  lemma DecodedListFree(field: string, list: seq<string>)
    requires Free(field, '|') && list == Pieces(field, ',', false)
    ensures Free(Terminated(list, ','), '|') && (Terminated(list, ',') == "" ==> list == [])
  {
    if list == [] {
      TerminatedFree(list, ',', '|');
    } else {
      DecodedListValid(field, list);
      ListRoundTrip(list);
    }
  }

  lemma NonEmptyPair(a: string, b: string)
    ensures |NonEmpty([a, b])| <= if b == "" then 1 else 2
  {
    assert [a, b][..1] == [a];
  }

  lemma StartDecodedValid(id: string, oldSet: seq<string>, newSet: seq<string>)
    requires DecodeStart(StartPayload(id, oldSet, newSet)) == Does(ReconfigStart(id, oldSet, newSet))
    ensures ValidId(id) && ValidReplicas(oldSet) && ValidReplicas(newSet)
  {
    var payload := StartPayload(id, oldSet, newSet);
    var parts := Pieces(payload, '|', false);
    PiecesClean(payload, '|', false);
    assert parts[0] in parts && parts[1] in parts && parts[2] in parts;
    DecodedListFree(parts[1], oldSet);
    DecodedListFree(parts[2], newSet);
    TerminatedTwo(id, Terminated(oldSet, ','));
    var fields := [id, Terminated(oldSet, ',')];
    PiecesSkipEmpty(fields, Terminated(newSet, ','), '|');
    NonEmptyPair(id, Terminated(oldSet, ','));
    DecodedListValid(parts[1], oldSet);
    DecodedListValid(parts[2], newSet);
  }

  /** The same for RECONFIGURE_START. */
  lemma StartPayloadExact(id: string, oldSet: seq<string>, newSet: seq<string>)
    ensures DecodeStart(StartPayload(id, oldSet, newSet)) == Does(ReconfigStart(id, oldSet, newSet))
      <==> ValidId(id) && ValidReplicas(oldSet) && ValidReplicas(newSet)
  {
    if DecodeStart(StartPayload(id, oldSet, newSet)) == Does(ReconfigStart(id, oldSet, newSet)) {
      StartDecodedValid(id, oldSet, newSet);
    }
    if ValidId(id) && ValidReplicas(oldSet) && ValidReplicas(newSet) {
      StartDecodes(id, oldSet, newSet);
    }
  }

  /** The same for RECONFIGURE_COMMIT. */
  lemma CommitPayloadExact(id: string, newSet: seq<string>)
    ensures DecodeCommit(CommitPayload(id, newSet)) == Does(ReconfigCommit(id, newSet))
      <==> ValidId(id) && ValidReplicas(newSet)
  {
    var payload := CommitPayload(id, newSet);
    TerminatedOne(id);
    if DecodeCommit(payload) == Does(ReconfigCommit(id, newSet)) {
      var parts := Pieces(payload, '|', false);
      PiecesClean(payload, '|', false);
      assert parts[0] in parts && parts[1] in parts;
      DecodedListFree(parts[1], newSet);
      PiecesSkipEmpty([id], Terminated(newSet, ','), '|');
      DecodedListValid(parts[1], newSet);
    }
    if ValidId(id) && ValidReplicas(newSet) {
      ListRoundTrip(newSet);
      PiecesOfTerminated([id], Terminated(newSet, ','), '|', false);
    }
  }

  // ---------------------------------------------------------------- heartbeats

  function HeartbeatPayload(n: NodeEntry, fl: Floats): string {
    n.nodeId + "|" + n.address + "|" + fl.format(n.loadFraction) + "|" + ToDecimal(n.freeBytes) + "|" +
    ToDecimal(n.totalBytes) + "|" + fl.format(n.failureRate)
  }

  /** The node entry a heartbeat payload makes; bad numbers are caught and the entry skipped. */
  function ParseHeartbeat(payload: string, fl: Floats, now: nat): Option<NodeEntry> {
    var parts := Pieces(payload, '|', false);
    if |parts| < 6 then None
    else
      var load, free, total, rate := fl.parse(parts[2]), Stoull(parts[3]), Stoull(parts[4]), fl.parse(parts[5]);
      if load.None? || free.None? || total.None? || rate.None? then None
      else Some(NodeEntry(parts[0], parts[1], load.value, free.value, total.value, rate.value, now, true))
  }

  /** Printed floats are not empty, have no separator and can be read again. */
  ghost predicate FloatsPrint(fl: Floats) {
    forall x :: fl.format(x) != "" && Free(fl.format(x), '|') && fl.parse(fl.format(x)).Some?
  }

  /** A node entry after its floats went through text. */
  function Rounded(n: NodeEntry, fl: Floats, now: nat): NodeEntry {
    var load, rate := fl.parse(fl.format(n.loadFraction)), fl.parse(fl.format(n.failureRate));
    n.(loadFraction := if load.Some? then load.value else 0.0, failureRate := if rate.Some? then rate.value else 0.0,
       lastSeenMs := now, alive := true)
  }

  lemma TerminatedFive(a: string, b: string, c: string, d: string, e: string)
    ensures Terminated([a, b, c, d, e], '|') == a + "|" + b + "|" + c + "|" + d + "|" + e + "|"
  {
    TerminatedFour(a, b, c, d);
    TerminatedSnoc([a, b, c, d], e, '|');
    assert [a, b, c, d] + [e] == [a, b, c, d, e];
  }

  /** A heartbeat arrives with its id, address and byte counters, and its floats as printed,
      exactly when the names are non-empty and separator-free and the counters fit. */
  lemma HeartbeatExact(n: NodeEntry, fl: Floats, now: nat)
    requires FloatsPrint(fl)
    ensures ParseHeartbeat(HeartbeatPayload(n, fl), fl, now) == Some(Rounded(n, fl, now))
      <==> ValidId(n.nodeId) && ValidId(n.address) && n.freeBytes < U64 && n.totalBytes < U64
  {
    var payload := HeartbeatPayload(n, fl);
    if ParseHeartbeat(payload, fl, now) == Some(Rounded(n, fl, now)) {
      var parts := Pieces(payload, '|', false);
      PiecesClean(payload, '|', false);
      assert parts[0] in parts && parts[1] in parts;
    }
    if ValidId(n.nodeId) && ValidId(n.address) && n.freeBytes < U64 && n.totalBytes < U64 {
      var load, rate := fl.format(n.loadFraction), fl.format(n.failureRate);
      var fields := [n.nodeId, n.address, load, ToDecimal(n.freeBytes), ToDecimal(n.totalBytes)];
      NumbersFree(n.freeBytes, 0, '|');
      NumbersFree(n.totalBytes, 0, '|');
      TerminatedFive(n.nodeId, n.address, load, ToDecimal(n.freeBytes), ToDecimal(n.totalBytes));
      PiecesOfTerminated(fields, rate, '|', false);
      StoullRoundTrip(n.freeBytes);
      StoullRoundTrip(n.totalBytes);
    }
  }

  // ---------------------------------------------------------------- applying an entry

  /** The chunk table after an entry; a skipped or throwing entry leaves it alone. */
  function AfterEntry(t: Table, e: Wal.Entry): Table {
    var d := Decode(e);
    if d.Does? then Apply(t, d.command) else t
  }

  /** The entry a DeleteChunk call writes removes exactly that chunk from every table. */
  lemma DeleteEntryExact(t: Table, term: nat, id: string)
    ensures var t' := AfterEntry(t, Wal.Entry(term, Wal.DELETE_CHUNK, id));
      id !in t' && t'.Keys == t.Keys - {id} && forall other <- t' :: t'[other] == t[other]
  {}

  /** Heartbeats, policy updates and unknown kinds leave every chunk table alone. */
  lemma OtherKindsKeepChunks(t: Table, e: Wal.Entry)
    requires e.kind != Wal.PUT_CHUNK && e.kind != Wal.DELETE_CHUNK
    requires e.kind != Wal.RECONFIGURE_START && e.kind != Wal.RECONFIGURE_COMMIT
    ensures AfterEntry(t, e) == t && !Decode(e).Throws?
  {}

  /** An encoded heartbeat registers its node, alive and heard of now, and no other. */
  lemma HeartbeatRegisters(nodes: map<string, NodeEntry>, term: nat, n: NodeEntry, fl: Floats, now: nat)
    requires FloatsPrint(fl) && ValidId(n.nodeId) && ValidId(n.address) && n.freeBytes < U64 && n.totalBytes < U64
    ensures var after := NodesAfter(nodes, Wal.Entry(term, Wal.NODE_HEARTBEAT, HeartbeatPayload(n, fl)), fl, now);
      && after.Keys == nodes.Keys + {n.nodeId}
      && after[n.nodeId].nodeId == n.nodeId && after[n.nodeId].address == n.address
      && after[n.nodeId].freeBytes == n.freeBytes && after[n.nodeId].totalBytes == n.totalBytes
      && after[n.nodeId].lastSeenMs == now && after[n.nodeId].alive
      && forall id <- nodes :: id != n.nodeId ==> after[id] == nodes[id]
  {
    HeartbeatExact(n, fl, now);
  }

  /** The node table after an entry: a well-formed heartbeat registers its node as alive now. */
  function NodesAfter(nodes: map<string, NodeEntry>, e: Wal.Entry, fl: Floats, now: nat): map<string, NodeEntry> {
    if e.kind != Wal.NODE_HEARTBEAT then nodes
    else
      var n := ParseHeartbeat(e.payload, fl, now);
      if n.None? then nodes else nodes[n.value.nodeId := n.value]
  }

  method ApplyWalEntry(coord: MetaCoordinator, e: Wal.Entry, fl: Floats, now: nat) returns (threw: bool)
    modifies coord
    ensures coord.chunkTable == AfterEntry(old(coord.chunkTable), e)
    ensures e.kind == Wal.DELETE_CHUNK ==> coord.chunkTable == old(coord.chunkTable) - {e.payload}
    ensures e.kind > Wal.RECONFIGURE_COMMIT ==> coord.chunkTable == old(coord.chunkTable)
    ensures coord.nodeTable == NodesAfter(old(coord.nodeTable), e, fl, now)
    ensures threw <==> Decode(e).Throws?
  {
    threw := false;
    if e.kind == Wal.PUT_CHUNK {
      var parts := SplitNonEmpty(e.payload, '|');
      if |parts| < 5 {
        return;
      }
      var replicas := SplitNonEmpty(parts[4], ',');
      var size, rf, version := Stoull(parts[1]), Stoi(parts[2]), Stoull(parts[3]);
      if size.None? || rf.None? || version.None? {
        threw := true;
        return;
      }
      coord.ApplyPutChunk(parts[0], size.value, rf.value, replicas, version.value);
    } else if e.kind == Wal.DELETE_CHUNK {
      coord.ApplyDeleteChunk(e.payload);
    } else if e.kind == Wal.RECONFIGURE_START {
      var parts := SplitNonEmpty(e.payload, '|');
      if |parts| < 3 {
        return;
      }
      var oldSet := SplitNonEmpty(parts[1], ',');
      var newSet := SplitNonEmpty(parts[2], ',');
      coord.ApplyReconfigStart(parts[0], oldSet, newSet);
    } else if e.kind == Wal.RECONFIGURE_COMMIT {
      var parts := SplitNonEmpty(e.payload, '|');
      if |parts| < 2 {
        return;
      }
      var newSet := SplitNonEmpty(parts[1], ',');
      coord.ApplyReconfigCommit(parts[0], newSet);
    } else if e.kind == Wal.NODE_HEARTBEAT {
      var n := ParseHeartbeat(e.payload, fl, now);
      if n.Some? {
        coord.ApplyHeartbeat(n.value.nodeId, n.value.address, n.value.loadFraction, n.value.freeBytes,
                             n.value.totalBytes, n.value.failureRate, now);
      }
    }
  }
}
