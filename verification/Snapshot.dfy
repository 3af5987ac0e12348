/** Metadata snapshots: framed binary layout, text entries and their parsers
    (src/meta/meta_snapshot.cpp). */
module Snapshot {
  import opened Text
  import opened Coordinator

  const MAGIC: nat := 0x4E4D5653

  datatype Error = TooSmall | BadMagic | Malformed

  datatype Parsed = Parsed(lsn: nat, nodes: seq<NodeEntry>, chunks: seq<ChunkEntry>)

  datatype Result = Ok(value: Parsed) | Err(error: Error)

  // ---------------------------------------------------------------- length-prefixed frames

  function Frame(d: string): string {
    Field32(|d|) + d
  }

  function Frames(items: seq<string>): string {
    if items == [] then "" else Frames(items[..|items| - 1]) + Frame(items[|items| - 1])
  }

  /** Reads one frame; the result carries the offset behind it. */
  function ReadFrame(buf: string, off: nat): (r: Option<(string, nat)>)
    ensures r.Some? ==> off < r.value.1 <= |buf|
  {
    if off + 4 > |buf| then None
    else
      var length := FromBigEndian(buf[off..off + 4]);
      if off + 4 + length > |buf| then None
      else Some((buf[off + 4..off + 4 + length], off + 4 + length))
  }

  function ReadFrames(buf: string, off: nat, count: nat): (r: Option<(seq<string>, nat)>)
    requires off <= |buf|
    ensures r.Some? ==> |r.value.0| == count && off <= r.value.1 <= |buf|
  {
    if count == 0 then Some(([], off))
    else match ReadFrames(buf, off, count - 1)
      case None => None
      case Some((items, at)) =>
        match ReadFrame(buf, at)
        case None => None
        case Some((d, next)) => Some((items + [d], next))
  }

  lemma FrameCuts(prefix: string, length: string, d: string, suffix: string)
    requires |length| == 4
    ensures var buf, at := prefix + (length + d) + suffix, |prefix|;
      buf[at..at + 4] == length && buf[at + 4..at + 4 + |d|] == d
  {
    var buf, at := prefix + (length + d) + suffix, |prefix|;
    assert forall i :: 0 <= i < |d| ==> buf[at + 4 + i] == d[i];
  }

  lemma FrameReads(prefix: string, d: string, suffix: string)
    requires |d| < U32
    ensures ReadFrame(prefix + Frame(d) + suffix, |prefix|) == Some((d, |prefix + Frame(d)|))
  {
    Field32RoundTrip(|d|);
    FrameCuts(prefix, Field32(|d|), d, suffix);
  }

  lemma Regroup(a: string, b: string, c: string, d: string)
    ensures a + (b + c) + d == a + b + (c + d) == (a + b) + c + d
    ensures a + (b + c) == a + b + c
  {}

  ghost predicate Frameable(items: seq<string>) {
    forall i :: 0 <= i < |items| ==> |items[i]| < U32
  }

  /** Reading back written frames gives the items and lands on the boundary behind them. */
  lemma {:induction false} FramesRead(prefix: string, items: seq<string>, suffix: string)
    requires Frameable(items)
    ensures ReadFrames(prefix + Frames(items) + suffix, |prefix|, |items|) ==
      Some((items, |prefix + Frames(items)|))
  {
    if items != [] {
      var init, d := items[..|items| - 1], items[|items| - 1];
      FramesRead(prefix, init, Frame(d) + suffix);
      NextFrame(prefix, Frames(init), init, d, suffix);
      FramesSnoc(items, init, d);
    }
  }

  lemma FramesSnoc(items: seq<string>, init: seq<string>, d: string)
    requires items != [] && init == items[..|items| - 1] && d == items[|items| - 1]
    ensures Frames(items) == Frames(init) + Frame(d) && items == init + [d]
  {}

  lemma NextFrame(prefix: string, before: string, init: seq<string>, d: string, suffix: string)
    requires |d| < U32
    requires ReadFrames(prefix + before + (Frame(d) + suffix), |prefix|, |init|) == Some((init, |prefix + before|))
    ensures ReadFrames(prefix + (before + Frame(d)) + suffix, |prefix|, |init| + 1) ==
      Some((init + [d], |prefix + (before + Frame(d))|))
  {
    Regroup(prefix, before, Frame(d), suffix);
    FrameReads(prefix + before, d, suffix);
  }

  // ---------------------------------------------------------------- chunk entries

  function ChunkFields(e: ChunkEntry): seq<string> {
    [e.chunkId, ToDecimal(e.version), IntToText(e.replicationFactor), ToDecimal(e.sizeBytes),
     if e.configState.Stable? then "0" else "1",
     Terminated(e.replicaSet, ','), Terminated(e.oldReplicaSet, ',')]
  }

  function SerializeChunk(e: ChunkEntry): string {
    Terminated(ChunkFields(e), ';')
  }

  function ParseChunk(s: string): Option<ChunkEntry> {
    var p := Pieces(s, ';', true);
    if |p| < 7 then None
    else
      var version, rf, size, state := Stoull(p[1]), Stoi(p[2]), Stoull(p[3]), Stoi(p[4]);
      if version.None? || rf.None? || size.None? || state.None? then None
      else Some(ChunkEntry(p[0], version.value, Pieces(p[5], ',', false), rf.value,
                           if state.value == 0 then Stable else Transitioning,
                           Pieces(p[6], ',', false), size.value))
  }

  ghost predicate NamesOk(names: seq<string>) {
    forall i :: 0 <= i < |names| ==> names[i] != "" && Free(names[i], ',') && Free(names[i], ';')
  }

  ghost predicate ChunkOk(e: ChunkEntry) {
    && Free(e.chunkId, ';') && NamesOk(e.replicaSet) && NamesOk(e.oldReplicaSet)
    && e.version < U64 && e.sizeBytes < U64 && IsInt32(e.replicationFactor)
  }

  lemma NamesRoundTrip(names: seq<string>)
    requires NamesOk(names)
    ensures Pieces(Terminated(names, ','), ',', false) == names && Free(Terminated(names, ','), ';')
  {
    TerminatedFree(names, ',', ';');
    PiecesOfTerminated(names, "", ',', false);
    assert Terminated(names, ',') + "" == Terminated(names, ',');
  }

  lemma CutNamesOk(field: string)
    requires Free(field, ';')
    ensures NamesOk(Pieces(field, ',', false))
  {
    PiecesClean(field, ',', false);
    var names := Pieces(field, ',', false);
    forall i | 0 <= i < |names| ensures names[i] != "" && Free(names[i], ',') && Free(names[i], ';') {
      assert names[i] in names;
    }
  }

  /** A chunk entry survives its text form exactly when its names are separator-free, its
      replica names non-empty and its numbers in range. */
  lemma ChunkTextExact(e: ChunkEntry)
    ensures ParseChunk(SerializeChunk(e)) == Some(e) <==> ChunkOk(e)
  {
    var s := SerializeChunk(e);
    if ParseChunk(s) == Some(e) {
      var p := Pieces(s, ';', true);
      PiecesClean(s, ';', true);
      assert p[0] in p && p[5] in p && p[6] in p;
      CutNamesOk(p[5]);
      CutNamesOk(p[6]);
    }
    if ChunkOk(e) {
      ChunkTextParses(e);
    }
  }

  lemma ChunkTextParses(e: ChunkEntry)
    requires ChunkOk(e)
    ensures ParseChunk(SerializeChunk(e)) == Some(e)
  {
    ChunkTextCuts(e);
    NamesRoundTrip(e.replicaSet);
    NamesRoundTrip(e.oldReplicaSet);
    StoullRoundTrip(e.version);
    StoullRoundTrip(e.sizeBytes);
    StoiRoundTrip(e.replicationFactor);
    StoiRoundTrip(0);
    StoiRoundTrip(1);
    assert IntToText(0) == "0" && IntToText(1) == "1";
  }

  lemma ChunkTextCuts(e: ChunkEntry)
    requires ChunkOk(e)
    ensures Pieces(SerializeChunk(e), ';', true) == ChunkFields(e)
  {
    NumbersFree(e.version, e.replicationFactor, ';');
    NumbersFree(e.sizeBytes, e.replicationFactor, ';');
    NamesRoundTrip(e.replicaSet);
    NamesRoundTrip(e.oldReplicaSet);
    var fields := ChunkFields(e);
    assert FieldsOk(fields, ';', true);
    PiecesOfTerminated(fields, "", ';', true);
    assert Terminated(fields, ';') + "" == Terminated(fields, ';');
  }

  // ---------------------------------------------------------------- node entries

  function NodeFields(n: NodeEntry, fl: Floats): seq<string> {
    [n.nodeId, n.address, fl.format(n.loadFraction), ToDecimal(n.freeBytes), ToDecimal(n.totalBytes),
     fl.format(n.failureRate), ToDecimal(n.lastSeenMs)]
  }

  function SerializeNode(n: NodeEntry, fl: Floats): string {
    Terminated(NodeFields(n, fl), ';') + if n.alive then "1" else "0"
  }

  /** The parser ignores the liveness field and marks every node alive. */
  function ParseNode(s: string, fl: Floats): Option<NodeEntry> {
    var p := Pieces(s, ';', true);
    if |p| < 7 then None
    else
      var load, free, total := fl.parse(p[2]), Stoull(p[3]), Stoull(p[4]);
      var rate, seen := fl.parse(p[5]), Stoull(p[6]);
      if load.None? || free.None? || total.None? || rate.None? || seen.None? then None
      else Some(NodeEntry(p[0], p[1], load.value, free.value, total.value, rate.value, seen.value, true))
  }

  ghost predicate FloatsOk(fl: Floats) {
    forall x :: Free(fl.format(x), ';') && fl.parse(fl.format(x)).Some?
  }

  ghost predicate NodeOk(n: NodeEntry) {
    Free(n.nodeId, ';') && Free(n.address, ';') && n.freeBytes < U64 && n.totalBytes < U64 && n.lastSeenMs < U64
  }

  /** What a node entry becomes: everything but liveness and the float fields is kept. */
  function Revived(n: NodeEntry, fl: Floats): NodeEntry {
    var load, rate := fl.parse(fl.format(n.loadFraction)), fl.parse(fl.format(n.failureRate));
    n.(alive := true, loadFraction := if load.Some? then load.value else 0.0,
       failureRate := if rate.Some? then rate.value else 0.0)
  }

  lemma NodeTextParses(n: NodeEntry, fl: Floats)
    requires NodeOk(n) && FloatsOk(fl)
    ensures ParseNode(SerializeNode(n, fl), fl) == Some(Revived(n, fl))
  {
    NumbersFree(n.freeBytes, 0, ';');
    NumbersFree(n.totalBytes, 0, ';');
    NumbersFree(n.lastSeenMs, 0, ';');
    assert Free(fl.format(n.loadFraction), ';') && Free(fl.format(n.failureRate), ';');
    PiecesOfTerminated(NodeFields(n, fl), if n.alive then "1" else "0", ';', true);
    StoullRoundTrip(n.freeBytes);
    StoullRoundTrip(n.totalBytes);
    StoullRoundTrip(n.lastSeenMs);
  }

  // ---------------------------------------------------------------- whole snapshots

  function ChunkTexts(chunks: seq<ChunkEntry>): (r: seq<string>)
    ensures |r| == |chunks| && forall i :: 0 <= i < |r| ==> r[i] == SerializeChunk(chunks[i])
  {
    seq(|chunks|, i requires 0 <= i < |chunks| => SerializeChunk(chunks[i]))
  }

  function NodeTexts(nodes: seq<NodeEntry>, fl: Floats): (r: seq<string>)
    ensures |r| == |nodes| && forall i :: 0 <= i < |r| ==> r[i] == SerializeNode(nodes[i], fl)
  {
    seq(|nodes|, i requires 0 <= i < |nodes| => SerializeNode(nodes[i], fl))
  }

  function Header(lsn: nat, nodeCount: nat): (s: string)
    ensures |s| == 16
  {
    Field32(MAGIC) + Field64(lsn) + Field32(nodeCount)
  }

  lemma Cuts(a: string, b: string, c: string)
    requires |a| == 4 && |b| == 8 && |c| == 4
    ensures var buf := a + b + c; buf[..4] == a && buf[4..12] == b && buf[12..16] == c
  {}

  lemma CutMiddle(a: string, b: string, c: string)
    ensures (a + (b + c))[|a|..|a| + |b|] == b
  {}

  function Bytes(lsn: nat, nodes: seq<string>, chunks: seq<string>): string {
    Header(lsn, |nodes|) + Frames(nodes) + (Field32(|chunks|) + Frames(chunks))
  }

  function ParseNodes(texts: seq<string>, fl: Floats): Option<seq<NodeEntry>> {
    if texts == [] then Some([])
    else match ParseNodes(texts[..|texts| - 1], fl)
      case None => None
      case Some(init) =>
        var n := ParseNode(texts[|texts| - 1], fl);
        if n.Some? then Some(init + [n.value]) else None
  }

  function ParseChunks(texts: seq<string>): Option<seq<ChunkEntry>> {
    if texts == [] then Some([])
    else match ParseChunks(texts[..|texts| - 1])
      case None => None
      case Some(init) =>
        var c := ParseChunk(texts[|texts| - 1]);
        if c.Some? then Some(init + [c.value]) else None
  }

  lemma {:induction false} ParseEachChunk(texts: seq<string>, chunks: seq<ChunkEntry>)
    requires |texts| == |chunks|
    requires forall i :: 0 <= i < |texts| ==> ParseChunk(texts[i]) == Some(chunks[i])
    ensures ParseChunks(texts) == Some(chunks)
  {
    if texts != [] {
      var n := |texts| - 1;
      ParseEachChunk(texts[..n], chunks[..n]);
      assert chunks == chunks[..n] + [chunks[n]];
    }
  }

  lemma ChunkTextsParse(chunks: seq<ChunkEntry>)
    requires forall i :: 0 <= i < |chunks| ==> ChunkOk(chunks[i])
    ensures ParseChunks(ChunkTexts(chunks)) == Some(chunks)
  {
    var texts := ChunkTexts(chunks);
    forall i | 0 <= i < |texts| ensures ParseChunk(texts[i]) == Some(chunks[i]) {
      ChunkTextParses(chunks[i]);
    }
    ParseEachChunk(texts, chunks);
  }

  function AllRevived(nodes: seq<NodeEntry>, fl: Floats): (r: seq<NodeEntry>)
    ensures |r| == |nodes| && forall i :: 0 <= i < |r| ==> r[i] == Revived(nodes[i], fl)
  {
    seq(|nodes|, i requires 0 <= i < |nodes| => Revived(nodes[i], fl))
  }

  lemma {:induction false} ParseEach(texts: seq<string>, fl: Floats, nodes: seq<NodeEntry>)
    requires |texts| == |nodes|
    requires forall i :: 0 <= i < |texts| ==> ParseNode(texts[i], fl) == Some(nodes[i])
    ensures ParseNodes(texts, fl) == Some(nodes)
  {
    if texts != [] {
      var n := |texts| - 1;
      ParseEach(texts[..n], fl, nodes[..n]);
      assert nodes == nodes[..n] + [nodes[n]];
    }
  }

  lemma NodeTextsParse(nodes: seq<NodeEntry>, fl: Floats)
    requires FloatsOk(fl) && forall i :: 0 <= i < |nodes| ==> NodeOk(nodes[i])
    ensures ParseNodes(NodeTexts(nodes, fl), fl) == Some(AllRevived(nodes, fl))
  {
    var texts, revived := NodeTexts(nodes, fl), AllRevived(nodes, fl);
    forall i | 0 <= i < |texts| ensures ParseNode(texts[i], fl) == Some(revived[i]) {
      NodeTextParses(nodes[i], fl);
    }
    ParseEach(texts, fl, revived);
  }

  /** What installing the bytes would restore; anything that makes it throw is an error. */
  function Decode(buf: string, fl: Floats): Result {
    if |buf| < 16 then Err(TooSmall)
    else if FromBigEndian(buf[..4]) != MAGIC then Err(BadMagic)
    else match ReadFrames(buf, 16, FromBigEndian(buf[12..16]))
      case None => Err(Malformed)
      case Some((texts, at)) =>
        var nodes := ParseNodes(texts, fl);
        if nodes.None? then Err(Malformed) else DecodeChunks(buf, at, FromBigEndian(buf[4..12]), nodes.value)
  }

  function DecodeChunks(buf: string, at: nat, lsn: nat, nodes: seq<NodeEntry>): Result {
    if at + 4 > |buf| then Err(Malformed)
    else match ReadFrames(buf, at + 4, FromBigEndian(buf[at..at + 4]))
      case None => Err(Malformed)
      case Some((texts, _)) =>
        var chunks := ParseChunks(texts);
        if chunks.None? then Err(Malformed) else Ok(Parsed(lsn, nodes, chunks.value))
  }

  lemma HeaderReads(magic: nat, lsn: nat, nodeCount: nat)
    requires magic < U32 && nodeCount < U32 && lsn < U64
    ensures var buf := Field32(magic) + Field64(lsn) + Field32(nodeCount);
      && FromBigEndian(buf[..4]) == magic && FromBigEndian(buf[4..12]) == lsn
      && FromBigEndian(buf[12..16]) == nodeCount
  {
    Cuts(Field32(magic), Field64(lsn), Field32(nodeCount));
    Field32RoundTrip(magic);
    Field64RoundTrip(lsn);
    Field32RoundTrip(nodeCount);
  }

  /** A count field followed by that many frames, anywhere in a buffer. */
  lemma CountedFramesRead(prefix: string, count: string, items: seq<string>)
    requires Frameable(items) && |count| == 4 && FromBigEndian(count) == |items|
    ensures var buf, at := prefix + (count + Frames(items)), |prefix|;
      && |buf| >= at + 4 && FromBigEndian(buf[at..at + 4]) == |items|
      && ReadFrames(buf, at + 4, |items|) == Some((items, |buf|))
  {
    CutMiddle(prefix, count, Frames(items));
    FramesRead(prefix + count, items, "");
    Regroup(prefix, count, Frames(items), "");
    assert prefix + count + Frames(items) + "" == prefix + count + Frames(items);
  }

  ghost predicate SnapshotOk(lsn: nat, nodes: seq<NodeEntry>, chunks: seq<ChunkEntry>, fl: Floats) {
    && lsn < U64 && |nodes| < U32 && |chunks| < U32 && FloatsOk(fl)
    && Frameable(NodeTexts(nodes, fl)) && Frameable(ChunkTexts(chunks))
    && (forall i :: 0 <= i < |nodes| ==> NodeOk(nodes[i]))
    && (forall i :: 0 <= i < |chunks| ==> ChunkOk(chunks[i]))
  }

  /** The buffer holds these frames behind the header and behind the first boundary. */
  ghost predicate Holds(buf: string, lsn: nat, nodes: seq<string>, at: nat, chunks: seq<string>) {
    && 16 <= at <= at + 4 <= |buf|
    && FromBigEndian(buf[..4]) == MAGIC && FromBigEndian(buf[4..12]) == lsn
    && FromBigEndian(buf[12..16]) == |nodes| && ReadFrames(buf, 16, |nodes|) == Some((nodes, at))
    && FromBigEndian(buf[at..at + 4]) == |chunks| && ReadFrames(buf, at + 4, |chunks|) == Some((chunks, |buf|))
  }

  lemma HeadSlices(head: string, rest: string)
    requires |head| == 16
    ensures var buf := head + rest; buf[..4] == head[..4] && buf[4..12] == head[4..12] && buf[12..16] == head[12..16]
  {}

  lemma LayoutHolds(head: string, lsn: nat, nodes: seq<string>, count: string, chunks: seq<string>)
    requires Frameable(nodes) && Frameable(chunks) && |head| == 16 && |count| == 4
    requires FromBigEndian(head[..4]) == MAGIC && FromBigEndian(head[4..12]) == lsn
    requires FromBigEndian(head[12..16]) == |nodes| && FromBigEndian(count) == |chunks|
    ensures Holds(head + Frames(nodes) + (count + Frames(chunks)), lsn, nodes, 16 + |Frames(nodes)|, chunks)
  {
    var rest := count + Frames(chunks);
    Regroup(head, Frames(nodes), rest, "");
    HeadSlices(head, Frames(nodes) + rest);
    FramesRead(head, nodes, rest);
    CountedFramesRead(head + Frames(nodes), count, chunks);
  }

  lemma HoldingDecodes(buf: string, lsn: nat, nodes: seq<string>, at: nat, chunks: seq<string>, fl: Floats)
    requires Holds(buf, lsn, nodes, at, chunks)
    requires ParseNodes(nodes, fl).Some? && ParseChunks(chunks).Some?
    ensures Decode(buf, fl) == Ok(Parsed(lsn, ParseNodes(nodes, fl).value, ParseChunks(chunks).value))
  {
    var parsed := ParseNodes(nodes, fl).value;
    assert Decode(buf, fl) == DecodeChunks(buf, at, lsn, parsed);
  }

  /** Decoding the bytes of a snapshot gives back its log position, its chunk entries and its
      node entries up to liveness and float rounding. */
  lemma SnapshotDecodes(lsn: nat, nodes: seq<NodeEntry>, chunks: seq<ChunkEntry>, fl: Floats)
    requires SnapshotOk(lsn, nodes, chunks, fl)
    ensures Decode(Bytes(lsn, NodeTexts(nodes, fl), ChunkTexts(chunks)), fl) ==
      Ok(Parsed(lsn, AllRevived(nodes, fl), chunks))
  {
    var nodeTexts, chunkTexts := NodeTexts(nodes, fl), ChunkTexts(chunks);
    NodeTextsParse(nodes, fl);
    ChunkTextsParse(chunks);
    var head, count := Header(lsn, |nodes|), Field32(|chunks|);
    HeaderReads(MAGIC, lsn, |nodes|);
    Field32RoundTrip(|chunks|);
    LayoutHolds(head, lsn, nodeTexts, count, chunkTexts);
    HoldingDecodes(head + Frames(nodeTexts) + (count + Frames(chunkTexts)), lsn, nodeTexts,
                   16 + |Frames(nodeTexts)|, chunkTexts, fl);
  }

  /** The entries list the table, in whatever order it is iterated. */
  ghost predicate Lists(chunks: seq<ChunkEntry>, t: Table) {
    && (forall i :: 0 <= i < |chunks| ==> chunks[i].chunkId in t && t[chunks[i].chunkId] == chunks[i])
    && (forall id <- t :: t[id].chunkId == id && t[id] in chunks)
  }

  ghost predicate Mentions(chunks: seq<ChunkEntry>, id: string) {
    exists i :: 0 <= i < |chunks| && chunks[i].chunkId == id
  }

  lemma {:induction false} RestoredContents(chunks: seq<ChunkEntry>, t: Table)
    requires forall i :: 0 <= i < |chunks| ==> chunks[i].chunkId in t && t[chunks[i].chunkId] == chunks[i]
    ensures forall id :: id in Restored(chunks) <==> Mentions(chunks, id)
    ensures forall id <- Restored(chunks) :: id in t && Restored(chunks)[id] == t[id]
  {
    if chunks != [] {
      var init, c := chunks[..|chunks| - 1], chunks[|chunks| - 1];
      RestoredContents(init, t);
      forall id ensures Mentions(chunks, id) <==> Mentions(init, id) || id == c.chunkId {
        if Mentions(init, id) {
          var i :| 0 <= i < |init| && init[i].chunkId == id;
          assert chunks[i] == init[i];
        }
        if Mentions(chunks, id) {
          var i :| 0 <= i < |chunks| && chunks[i].chunkId == id;
          assert i < |init| ==> init[i] == chunks[i];
        }
      }
    }
  }

  lemma RestoredIsTable(chunks: seq<ChunkEntry>, t: Table)
    requires Lists(chunks, t)
    ensures Restored(chunks) == t
  {
    RestoredContents(chunks, t);
    forall id | id in t ensures Mentions(chunks, id) {
      var i :| 0 <= i < |chunks| && chunks[i] == t[id];
    }
    assert Restored(chunks).Keys == t.Keys;
  }

  /** Snapshot round trip: installing a snapshot of a table restores exactly that table and
      its log position. */
  lemma TableRoundTrip(lsn: nat, nodes: seq<NodeEntry>, chunks: seq<ChunkEntry>, t: Table, fl: Floats)
    requires SnapshotOk(lsn, nodes, chunks, fl) && Lists(chunks, t)
    ensures var r := Decode(Bytes(lsn, NodeTexts(nodes, fl), ChunkTexts(chunks)), fl);
      r.Ok? && r.value.lsn == lsn && Restored(r.value.chunks) == t
  {
    SnapshotDecodes(lsn, nodes, chunks, fl);
    RestoredIsTable(chunks, t);
  }

  /** The nodes of a snapshot list a node table. */
  ghost predicate ListsNodes(nodes: seq<NodeEntry>, t: map<string, NodeEntry>) {
    && (forall i :: 0 <= i < |nodes| ==> nodes[i].nodeId in t && t[nodes[i].nodeId] == nodes[i])
    && (forall id <- t :: t[id].nodeId == id && t[id] in nodes)
  }

  lemma {:induction false} RestoredNodesContents(nodes: seq<NodeEntry>, t: map<string, NodeEntry>, fl: Floats)
    requires forall i :: 0 <= i < |nodes| ==> nodes[i].nodeId in t && t[nodes[i].nodeId] == nodes[i]
    ensures forall id :: id in RestoredNodes(AllRevived(nodes, fl)) <==> exists i :: 0 <= i < |nodes| && nodes[i].nodeId == id
    ensures forall id <- RestoredNodes(AllRevived(nodes, fl)) :: id in t && RestoredNodes(AllRevived(nodes, fl))[id] == Revived(t[id], fl)
  {
    if nodes != [] {
      var init := nodes[..|nodes| - 1];
      RestoredNodesContents(init, t, fl);
      assert AllRevived(nodes, fl)[..|nodes| - 1] == AllRevived(init, fl);
    }
  }

  /** A node comes back with its id, address, byte counters and time, and alive. */
  ghost predicate SameNode(n: NodeEntry, m: NodeEntry) {
    && m.nodeId == n.nodeId && m.address == n.address && m.freeBytes == n.freeBytes && m.totalBytes == n.totalBytes
    && m.lastSeenMs == n.lastSeenMs && m.alive
  }

  /** The node table of a snapshot comes back: the same nodes, each up to liveness and floats. */
  lemma NodeTableRoundTrip(lsn: nat, nodes: seq<NodeEntry>, chunks: seq<ChunkEntry>, t: map<string, NodeEntry>, fl: Floats)
    requires SnapshotOk(lsn, nodes, chunks, fl) && ListsNodes(nodes, t)
    ensures var r := Decode(Bytes(lsn, NodeTexts(nodes, fl), ChunkTexts(chunks)), fl);
      && r.Ok? && RestoredNodes(r.value.nodes).Keys == t.Keys
      && forall id <- t :: SameNode(t[id], RestoredNodes(r.value.nodes)[id])
  {
    SnapshotDecodes(lsn, nodes, chunks, fl);
    RestoredNodesContents(nodes, t, fl);
    forall id | id in t ensures id in RestoredNodes(AllRevived(nodes, fl)) {
      var i :| 0 <= i < |nodes| && nodes[i] == t[id];
    }
    assert RestoredNodes(AllRevived(nodes, fl)).Keys == t.Keys;
  }

  // ---------------------------------------------------------------- writing and installing

  method AppendFrames(buf: string, items: seq<string>) returns (out: string)
    ensures out == buf + Frames(items)
  {
    out := buf;
    for i := 0 to |items|
      invariant out == buf + Frames(items[..i])
    {
      assert items[..i + 1][..i] == items[..i];
      Regroup(buf, Frames(items[..i]), Frame(items[i]), "");
      out := out + Frame(items[i]);
    }
    assert items[..|items|] == items;
  }

  method TakeSnapshot(lsn: nat, nodes: seq<NodeEntry>, chunks: seq<ChunkEntry>, fl: Floats) returns (buf: string)
    ensures buf == Bytes(lsn, NodeTexts(nodes, fl), ChunkTexts(chunks))
  {
    buf := AppendFrames(Header(lsn, |nodes|), NodeTexts(nodes, fl));
    ghost var front := buf;
    buf := AppendFrames(buf + Field32(|chunks|), ChunkTexts(chunks));
    Regroup(front, Field32(|chunks|), Frames(ChunkTexts(chunks)), "");
  }

  /** Reads `count` frames from `off`, as the install loops do. */
  method TakeFrames(buf: string, off: nat, count: nat) returns (r: Option<(seq<string>, nat)>)
    requires off <= |buf|
    ensures r == ReadFrames(buf, off, count)
  {
    var items, at := [], off;
    for i := 0 to count
      invariant ReadFrames(buf, off, i) == Some((items, at))
    {
      var next := ReadFrame(buf, at);
      if next.None? {
        ReadFramesStop(buf, off, i + 1, count);
        return None;
      }
      items, at := items + [next.value.0], next.value.1;
    }
    return Some((items, at));
  }

  lemma {:induction false} ReadFramesStop(buf: string, off: nat, some: nat, more: nat)
    requires off <= |buf| && some <= more && ReadFrames(buf, off, some).None?
    ensures ReadFrames(buf, off, more).None?
  {
    if some < more {
      ReadFramesStop(buf, off, some, more - 1);
    }
  }

  /** Installing restores the decoded snapshot into the coordinator; bytes that do not decode
      leave the coordinator as it was. */
  method InstallSnapshot(coord: MetaCoordinator, buf: string, fl: Floats) returns (r: Result)
    modifies coord
    ensures r == Decode(buf, fl)
    ensures r.Ok? ==> coord.chunkTable == Restored(r.value.chunks) && coord.nodeTable == RestoredNodes(r.value.nodes)
    ensures r.Err? ==> coord.chunkTable == old(coord.chunkTable) && coord.nodeTable == old(coord.nodeTable)
  {
    if |buf| < 16 {
      return Err(TooSmall);
    }
    if FromBigEndian(buf[..4]) != MAGIC {
      return Err(BadMagic);
    }
    var lsn := FromBigEndian(buf[4..12]);
    var nodeTexts := TakeFrames(buf, 16, FromBigEndian(buf[12..16]));
    if nodeTexts.None? {
      return Err(Malformed);
    }
    var nodes, at := ParseNodes(nodeTexts.value.0, fl), nodeTexts.value.1;
    if nodes.None? {
      return Err(Malformed);
    }
    if at + 4 > |buf| {
      return Err(Malformed);
    }
    var chunkTexts := TakeFrames(buf, at + 4, FromBigEndian(buf[at..at + 4]));
    if chunkTexts.None? {
      return Err(Malformed);
    }
    var chunks := ParseChunks(chunkTexts.value.0);
    if chunks.None? {
      return Err(Malformed);
    }
    coord.RestoreSnapshot(nodes.value, chunks.value);
    return Ok(Parsed(lsn, nodes.value, chunks.value));
  }
}
