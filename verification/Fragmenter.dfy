/** The sending half of the handshake byte path: splitBytes (dtls/util.go) and
    Conn.fragmentHandshake (dtls/conn.go). */
module Fragmenter {
  import opened Bytes
  import opened HandshakeWire

  /** The pieces splitBytes cuts, as a value. */
  function Chunks(bytes: seq<byte>, splitLen: nat): seq<seq<byte>>
    requires splitLen > 0
  {
    if |bytes| == 0 then []
    else if |bytes| <= splitLen then [bytes]
    else [bytes[..splitLen]] + Chunks(bytes[splitLen..], splitLen)
  }

  /** What makes a list of pieces one split of a message: either every piece carries bytes, or the
      message is empty and travels as one empty piece. */
  predicate OneSplit(pieces: seq<seq<byte>>) {
    pieces != [] && (|pieces| == 1 || forall k :: 0 <= k < |pieces| ==> pieces[k] != [])
  }

  function Offset(pieces: seq<seq<byte>>, k: nat): nat
    requires k <= |pieces|
  {
    |Concat(pieces[..k])|
  }

  /** Where piece `k` lies in the body. */
  lemma PieceSlice(pieces: seq<seq<byte>>, k: nat)
    requires k < |pieces|
    ensures Offset(pieces, k + 1) == Offset(pieces, k) + |pieces[k]| <= |Concat(pieces)|
    ensures pieces[k] == Concat(pieces)[Offset(pieces, k)..Offset(pieces, k + 1)]
    ensures Concat(pieces[..k + 1]) == Concat(pieces[..k]) + pieces[k] == Concat(pieces)[..Offset(pieces, k + 1)]
  {
    ConcatSnoc(pieces[..k], pieces[k]);
    assert pieces[..k] + [pieces[k]] == pieces[..k + 1];
    ConcatAppend(pieces[..k + 1], pieces[k + 1..]);
    assert pieces[..k + 1] + pieces[k + 1..] == pieces;
  }

  lemma {:induction false} OffsetsGrow(pieces: seq<seq<byte>>, j: nat, k: nat)
    requires OneSplit(pieces) && j < k < |pieces|
    ensures Offset(pieces, j) < Offset(pieces, k)
    decreases k - j
  {
    PieceSlice(pieces, j);
    if j + 1 < k {
      OffsetsGrow(pieces, j + 1, k);
    }
  }

  /** Nothing lost, nothing reordered, no empty piece, full pieces before the last. */
  lemma {:induction false} ChunksAreASplit(bytes: seq<byte>, splitLen: nat)
    requires splitLen > 0
    ensures Concat(Chunks(bytes, splitLen)) == bytes
    ensures forall k :: 0 <= k < |Chunks(bytes, splitLen)| ==> 0 < |Chunks(bytes, splitLen)[k]| <= splitLen
    ensures forall k :: 0 <= k < |Chunks(bytes, splitLen)| - 1 ==> |Chunks(bytes, splitLen)[k]| == splitLen
    ensures Chunks(bytes, splitLen) == [] <==> bytes == []
  {
    if |bytes| > splitLen {
      ChunksAreASplit(bytes[splitLen..], splitLen);
    } else if |bytes| > 0 {
      assert Concat([bytes]) == bytes + Concat([]);
    }
  }

  /** One round of splitBytes. */
  lemma NextChunk(bytes: seq<byte>, splitLen: nat, i: nat, j: nat)
    requires splitLen > 0 && i < |bytes| && j == if i + splitLen < |bytes| then i + splitLen else |bytes|
    ensures Chunks(bytes[i..], splitLen) == [bytes[i..j]] + Chunks(bytes[j..], splitLen)
  {
    var rest := bytes[i..];
    assert rest[..j - i] == bytes[i..j] && rest[j - i..] == bytes[j..];
    assert |rest| <= splitLen ==> rest == bytes[i..j];
  }

  method SplitBytes(bytes: seq<byte>, splitLen: nat) returns (out: seq<seq<byte>>)
    requires splitLen > 0
    ensures out == Chunks(bytes, splitLen)
  {
    out := [];
    var i := 0;
    assert bytes[0..] == bytes;
    while i < |bytes|
      invariant 0 <= i
      invariant out + Chunks(bytes[if i < |bytes| then i else |bytes|..], splitLen) == Chunks(bytes, splitLen)
    {
      var j := if i + splitLen < |bytes| then i + splitLen else |bytes|;
      NextChunk(bytes, splitLen, i, j);
      out := out + [bytes[i..j]];
      i := i + splitLen;
    }
  }

  /** What one message is cut into on the wire. */
  function Pieces(body: seq<byte>, mtu: nat): seq<seq<byte>>
    requires mtu > 0
  {
    if body == [] then [[]] else Chunks(body, mtu)
  }

  lemma PiecesAreOneSplit(body: seq<byte>, mtu: nat)
    requires mtu > 0
    ensures OneSplit(Pieces(body, mtu)) && Concat(Pieces(body, mtu)) == body
    ensures forall k :: 0 <= k < |Pieces(body, mtu)| ==> |Pieces(body, mtu)[k]| <= mtu
  {
    ChunksAreASplit(body, mtu);
    if body == [] {
      assert Concat([[]]) == [] + Concat([]);
    }
  }

  /** A fragment on the wire: the header of the slice, then the slice. */
  function FragmentBytes(h: Header, data: seq<byte>): (b: seq<byte>)
    ensures |b| == HEADER_LENGTH + |data|
  {
    MarshalHeader(h) + data
  }

  function PieceHeader(typ: byte, seqNo: u16, pieces: seq<seq<byte>>, k: nat): Header
    requires k < |pieces|
  {
    Header(typ, |Concat(pieces)| % U32_LIMIT, seqNo, Offset(pieces, k) % U32_LIMIT, |pieces[k]| % U32_LIMIT)
  }

  /** The headers and slices of one message. */
  method MarshalPieces(typ: byte, seqNo: u16, body: seq<byte>, pieces: seq<seq<byte>>) returns (out: seq<seq<byte>>)
    requires OneSplit(pieces) && Concat(pieces) == body
    ensures |out| == |pieces|
    ensures forall k :: 0 <= k < |out| ==> out[k] == FragmentBytes(PieceHeader(typ, seqNo, pieces, k), pieces[k])
  {
    out := [];
    var offset := 0;
    for k := 0 to |pieces|
      invariant |out| == k && offset == Offset(pieces, k)
      invariant forall j :: 0 <= j < k ==> out[j] == FragmentBytes(PieceHeader(typ, seqNo, pieces, j), pieces[j])
    {
      var n := |pieces[k]|;
      var header := Header(typ, |body| % U32_LIMIT, seqNo, offset % U32_LIMIT, n % U32_LIMIT);
      PieceSlice(pieces, k);
      assert header == PieceHeader(typ, seqNo, pieces, k);
      offset := offset + n;
      out := out + [FragmentBytes(header, pieces[k])];
    }
  }

  method FragmentHandshake(typ: byte, seqNo: u16, body: seq<byte>, mtu: nat) returns (out: seq<seq<byte>>)
    requires mtu > 0
    ensures var pieces := Pieces(body, mtu);
            |out| == |pieces| &&
            forall k :: 0 <= k < |out| ==> out[k] == FragmentBytes(PieceHeader(typ, seqNo, pieces, k), pieces[k])
  {
    var contentFragments := SplitBytes(body, mtu);
    ChunksAreASplit(body, mtu);
    if |contentFragments| == 0 {
      contentFragments := [[]];
    }
    PiecesAreOneSplit(body, mtu);
    out := MarshalPieces(typ, seqNo, body, contentFragments);
  }
}
