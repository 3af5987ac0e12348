/** Streaming a byte string in pieces and putting it together again: chunk data
    (src/storage/storage_rpc.cpp, src/storage/replica_repair.cpp) and snapshots
    (src/meta/meta_rpc.cpp, src/bin/meta_server.cpp). */
module Streaming {
  import opened Text

  const PIECE: nat := 65536

  datatype Piece = Piece(data: string, version: nat, last: bool)

  function Joined(pieces: seq<Piece>): string {
    if pieces == [] then "" else Joined(pieces[..|pieces| - 1]) + pieces[|pieces| - 1].data
  }

  /** The pieces carry the data in order, at most 64 KiB each, under one version, and the last
      flag marks the final piece and no other. */
  ghost predicate Carries(pieces: seq<Piece>, data: string, version: nat) {
    && pieces != [] && Joined(pieces) == data
    && (forall i :: 0 <= i < |pieces| ==> |pieces[i].data| <= PIECE && pieces[i].version == version)
    && (forall i :: 0 <= i < |pieces| ==> (pieces[i].last <==> i == |pieces| - 1))
  }

  /** The first `off` bytes have been sent. */
  ghost predicate Sent(pieces: seq<Piece>, data: string, off: nat, version: nat) {
    && off <= |data| && Joined(pieces) == data[..off] && (pieces == [] <==> off == 0)
    && (forall i :: 0 <= i < |pieces| ==> |pieces[i].data| <= PIECE && pieces[i].version == version)
    && (forall i :: 0 <= i < |pieces| ==> (pieces[i].last <==> i == |pieces| - 1 && off == |data|))
  }

  lemma SendPiece(pieces: seq<Piece>, data: string, off: nat, version: nat, n: nat)
    requires Sent(pieces, data, off, version) && 0 < n <= PIECE && off + n <= |data|
    ensures Sent(pieces + [Piece(data[off..off + n], version, off + n == |data|)], data, off + n, version)
  {
    var out := Piece(data[off..off + n], version, off + n == |data|);
    assert (pieces + [out])[..|pieces|] == pieces;
    assert data[..off] + out.data == data[..off + n];
  }

  /** The splitting loop. Chunk streams send one empty piece for empty data; snapshot streams,
      which are never empty, would send nothing. */
  method Split(data: string, version: nat, emptyPiece: bool) returns (pieces: seq<Piece>)
    ensures data != "" || emptyPiece ==> Carries(pieces, data, version)
    ensures data == "" && !emptyPiece ==> pieces == []
  {
    pieces := [];
    var off := 0;
    while off < |data|
      invariant Sent(pieces, data, off, version)
    {
      var n := if PIECE <= |data| - off then PIECE else |data| - off;
      SendPiece(pieces, data, off, version, n);
      pieces := pieces + [Piece(data[off..off + n], version, off + n >= |data|)];
      off := off + n;
    }
    if data == "" && emptyPiece {
      pieces := [Piece("", version, true)];
      EmptyPiece(version);
    } else {
      AllSent(pieces, data, version);
    }
  }

  lemma AllSent(pieces: seq<Piece>, data: string, version: nat)
    requires Sent(pieces, data, |data|, version)
    ensures if data == "" then pieces == [] else Carries(pieces, data, version)
  {
    assert data[..|data|] == data;
  }

  lemma EmptyPiece(version: nat)
    ensures Carries([Piece("", version, true)], "", version)
  {
    assert [Piece("", version, true)][..0] == [];
  }

  /** What the receiver keeps: everything up to the first piece flagged last. */
  function Collected(pieces: seq<Piece>): seq<Piece> {
    if pieces == [] then []
    else if pieces[0].last then [pieces[0]]
    else [pieces[0]] + Collected(pieces[1..])
  }

  /** The receiver stops behind the first last-flagged piece, or at the end. */
  lemma {:induction false} CollectedIs(pieces: seq<Piece>, n: nat)
    requires n <= |pieces| && forall i :: 0 <= i < n - 1 ==> !pieces[i].last
    requires n == |pieces| || (n > 0 && pieces[n - 1].last)
    ensures Collected(pieces) == pieces[..n]
  {
    if pieces != [] && !pieces[0].last {
      CollectedIs(pieces[1..], n - 1);
      assert pieces[..n] == [pieces[0]] + pieces[1..][..n - 1];
    }
  }

  function MaxVersion(pieces: seq<Piece>): nat {
    if pieces == [] then 0
    else
      var m, v := MaxVersion(pieces[..|pieces| - 1]), pieces[|pieces| - 1].version;
      if v > m then v else m
  }

  /** The receiving loop: appends until a last-flagged piece or the end of the stream, and
      takes the result only if its version reaches the target. */
  method Receive(pieces: seq<Piece>, target: nat) returns (r: Option<(string, nat)>)
    ensures var got := Collected(pieces);
      r == if got == [] || MaxVersion(got) < target then None else Some((Joined(got), MaxVersion(got)))
  {
    var data, version, i := "", 0, 0;
    var stopped := false;
    while i < |pieces| && !stopped
      invariant 0 <= i <= |pieces|
      invariant data == Joined(pieces[..i]) && version == MaxVersion(pieces[..i])
      invariant forall k :: 0 <= k < i - 1 ==> !pieces[k].last
      invariant stopped <==> i > 0 && pieces[i - 1].last
    {
      assert pieces[..i + 1][..i] == pieces[..i];
      data := data + pieces[i].data;
      if pieces[i].version > version {
        version := pieces[i].version;
      }
      stopped := pieces[i].last;
      i := i + 1;
    }
    CollectedIs(pieces, i);
    if i == 0 || version < target {
      return None;
    }
    return Some((data, version));
  }

  lemma {:induction false} OneVersion(pieces: seq<Piece>, version: nat)
    requires pieces != [] && forall i :: 0 <= i < |pieces| ==> pieces[i].version == version
    ensures MaxVersion(pieces) == version
  {
    if |pieces| > 1 {
      OneVersion(pieces[..|pieces| - 1], version);
    }
  }

  /** Streaming round trip: every byte string, the empty one included, arrives unchanged. */
  method Transfer(data: string, version: nat, target: nat) returns (r: Option<(string, nat)>)
    ensures r == if version < target then None else Some((data, version))
  {
    var pieces := Split(data, version, true);
    CollectedIs(pieces, |pieces|);
    assert pieces[..|pieces|] == pieces;
    OneVersion(pieces, version);
    r := Receive(pieces, target);
  }

  /** The follower's loop over a snapshot stream: no version to check, but something must come. */
  method ReceiveSnapshot(pieces: seq<Piece>) returns (r: Option<string>)
    ensures var got := Collected(pieces); r == if got == [] then None else Some(Joined(got))
  {
    var data, i := "", 0;
    var stopped := false;
    while i < |pieces| && !stopped
      invariant 0 <= i <= |pieces| && data == Joined(pieces[..i])
      invariant forall k :: 0 <= k < i - 1 ==> !pieces[k].last
      invariant stopped <==> i > 0 && pieces[i - 1].last
    {
      assert pieces[..i + 1][..i] == pieces[..i];
      data := data + pieces[i].data;
      stopped := pieces[i].last;
      i := i + 1;
    }
    CollectedIs(pieces, i);
    return if i == 0 then None else Some(data);
  }

  /** A snapshot stream delivers every non-empty buffer; an empty one sends nothing at all. */
  method TransferSnapshot(data: string, lsn: nat) returns (r: Option<string>)
    ensures r == if data == "" then None else Some(data)
  {
    var pieces := Split(data, lsn, false);
    CollectedIs(pieces, |pieces|);
    assert pieces[..|pieces|] == pieces;
    r := ReceiveSnapshot(pieces);
  }
}
