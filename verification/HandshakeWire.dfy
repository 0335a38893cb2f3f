/** The 12-byte DTLS handshake header and the 13-byte record header
    (dtls/pkg/protocol/handshake/header.go, handshake.go, dtls/pkg/protocol/recordlayer/header.go). */
module HandshakeWire {
  import opened Options
  import opened Bytes

  const HEADER_LENGTH := 12
  const FIXED_HEADER_SIZE := 13
  const CONTENT_TYPE_HANDSHAKE: byte := 22

  datatype Header = Header(typ: byte, length: u32, messageSequence: u16, fragmentOffset: u32, fragmentLength: u32)

  function MarshalHeader(h: Header): (b: seq<byte>)
    ensures |b| == HEADER_LENGTH
  {
    [h.typ] + PutU24(h.length) + PutU16(h.messageSequence) + PutU24(h.fragmentOffset) + PutU24(h.fragmentLength)
  }

  function UnmarshalHeader(data: seq<byte>): (r: Option<Header>)
    ensures r.None? <==> |data| < HEADER_LENGTH
    ensures r.Some? ==> r.value.fragmentOffset < U24_LIMIT && r.value.fragmentLength < U24_LIMIT
    ensures r.Some? ==> r.value.length < U24_LIMIT
  {
    if |data| < HEADER_LENGTH then None
    else Some(Header(data[0], GetU24(data, 1), GetU16(data, 4), GetU24(data, 6), GetU24(data, 9)))
  }

  /** Where each field of a marshalled header lies. */
  lemma HeaderFields(h: Header, rest: seq<byte>)
    ensures var d := MarshalHeader(h) + rest;
            && d[0] == h.typ && d[1..4] == PutU24(h.length) && d[4..6] == PutU16(h.messageSequence)
            && d[6..9] == PutU24(h.fragmentOffset) && d[9..12] == PutU24(h.fragmentLength)
  {
  }

  /** What 24-bit fields keep of a header. */
  function Truncated(h: Header): Header {
    h.(length := h.length % U24_LIMIT, fragmentOffset := h.fragmentOffset % U24_LIMIT,
       fragmentLength := h.fragmentLength % U24_LIMIT)
  }

  lemma TruncatedIff(h: Header)
    ensures Truncated(h) == h <==> h.length < U24_LIMIT && h.fragmentOffset < U24_LIMIT && h.fragmentLength < U24_LIMIT
  {
  }

  lemma FieldsRecovered(h: Header, d: seq<byte>)
    requires |d| >= HEADER_LENGTH && d[0] == h.typ && d[1..4] == PutU24(h.length) &&
             d[4..6] == PutU16(h.messageSequence)
    requires d[6..9] == PutU24(h.fragmentOffset) && d[9..12] == PutU24(h.fragmentLength)
    ensures UnmarshalHeader(d) == Some(Truncated(h))
  {
    U24RoundTrip(h.length, d, 1);
    U16RoundTrip(h.messageSequence, d, 4);
    U24RoundTrip(h.fragmentOffset, d, 6);
    U24RoundTrip(h.fragmentLength, d, 9);
  }

  /** The header is recovered, whatever follows it, exactly when its three uint32 fields fit in 24 bits. */
  lemma HeaderRoundTrip(h: Header, rest: seq<byte>)
    ensures UnmarshalHeader(MarshalHeader(h) + rest) == Some(h) <==>
            h.length < U24_LIMIT && h.fragmentOffset < U24_LIMIT && h.fragmentLength < U24_LIMIT
  {
    HeaderFields(h, rest);
    FieldsRecovered(h, MarshalHeader(h) + rest);
    TruncatedIff(h);
  }

  /** Handshake.Marshal: a whole, unfragmented message. */
  function WholeHeader(typ: byte, seqNo: u16, body: seq<byte>): Header {
    var n := |body| % U32_LIMIT;
    Header(typ, n, seqNo, 0, n)
  }

  function MarshalHandshake(typ: byte, seqNo: u16, body: seq<byte>): (b: seq<byte>)
    ensures |b| == HEADER_LENGTH + |body|
  {
    MarshalHeader(WholeHeader(typ, seqNo, body)) + body
  }

  datatype RecordHeader = RecordHeader(contentType: byte, major: byte, minor: byte, epoch: u16)
  datatype RecordError = RecordTooSmall | UnsupportedVersion

  datatype RecordResult = RecordOk(header: RecordHeader) | RecordErr(error: RecordError)

  /** recordlayer.Header.Unmarshal with no connection ID expected; the sequence number and the
      content length are not read by the handshake path. */
  function UnmarshalRecordHeader(data: seq<byte>): (r: RecordResult)
    ensures r.RecordOk? ==> |data| >= FIXED_HEADER_SIZE
  {
    if |data| < FIXED_HEADER_SIZE then RecordErr(RecordTooSmall)
    else if data[1] == 0xfe && (data[2] == 0xff || data[2] == 0xfd) then
      RecordOk(RecordHeader(data[0], data[1], data[2], GetU16(data, 3)))
    else RecordErr(UnsupportedVersion)
  }
}
