/** The DTLS 1.3 handshake transcript (dtls/handshake_transcript_13.go, dtls/handshaker_13.go).

    A hash object is the byte string it has absorbed; the digest and the SHA-256 fingerprint are parameters. */
module Transcript13 {
  import opened Options
  import opened Bytes
  import opened HandshakeWire

  const TLS_HEADER_LENGTH := 4
  const TYPE_CLIENT_HELLO: byte := 1
  const TYPE_MESSAGE_HASH: byte := 254

  datatype Sender = Client | Server
  datatype MessageId = MessageId(sender: Sender, seqNo: u16)

  type Digest = seq<byte> -> seq<byte>

  /** A hash constructor: nil, one that returns nil, or a usable one. */
  datatype HashSource = NoFunction | NoHash | Usable(digest: Digest)

  datatype Error = BufferTooSmall | InvalidMessage | NotSelected | AlreadySelected | MessageChanged | RetryInvalid

  datatype Outcome = Ok | Err(error: Error)

  datatype SeenMessage = SeenMessage(length: nat, fingerprint: seq<byte>)
  datatype OrderEntry = OrderEntry(id: MessageId, typ: byte)

  datatype Transcript = Transcript(
    hash: HashSource,
    absorbed: seq<byte>,
    pending: seq<seq<byte>>,
    bytes: seq<byte>,
    seen: map<MessageId, SeenMessage>,
    order: seq<OrderEntry>,
    retryApplied: bool)
  {
    predicate Selected() { hash.Usable? }
  }

  function NewTranscript(): Transcript {
    Transcript(NoFunction, [], [], [], map[], [], false)
  }

  datatype CanonicalResult = Canonical(bytes: seq<byte>) | NotCanonical(error: Error)

  /** canonicalHandshake13: drop the DTLS-only header fields of a whole message. */
  function CanonicalHandshake(raw: seq<byte>): CanonicalResult {
    match UnmarshalHeader(raw)
    case None => NotCanonical(BufferTooSmall)
    case Some(h) =>
      if h.fragmentOffset != 0 || h.fragmentLength != h.length || |raw| != HEADER_LENGTH + h.length
      then NotCanonical(InvalidMessage)
      else Canonical(raw[..TLS_HEADER_LENGTH] + raw[HEADER_LENGTH..])
  }

  /** The TLS 1.3 encoding of a message: type, 24-bit length, body. */
  function TlsMessage(typ: byte, body: seq<byte>): seq<byte> {
    [typ] + PutU24(|body| % U32_LIMIT) + body
  }

  /** Section 5.2 of RFC 9147: the transcript sees the message as TLS would have encoded it, whatever its
      DTLS sequence number. */
  lemma CanonicalIsTls(typ: byte, seqNo: u16, body: seq<byte>)
    requires |body| < U24_LIMIT
    ensures CanonicalHandshake(MarshalHandshake(typ, seqNo, body)) == Canonical(TlsMessage(typ, body))
  {
    var raw := MarshalHandshake(typ, seqNo, body);
    HeaderRoundTrip(WholeHeader(typ, seqNo, body), body);
    assert raw[..TLS_HEADER_LENGTH] == [typ] + PutU24(|body|);
    assert raw[HEADER_LENGTH..] == body;
  }

  function Validate(message: seq<byte>): Outcome {
    if |message| < TLS_HEADER_LENGTH then Err(BufferTooSmall)
    else if GetU24(message, 1) != |message| - TLS_HEADER_LENGTH then Err(InvalidMessage)
    else Ok
  }

  function SelectHash(t: Transcript, source: HashSource): (Transcript, Outcome) {
    if source.NoFunction? then (t, Err(NotSelected))
    else if t.Selected() then (t, Err(AlreadySelected))
    else if source.NoHash? then (t, Err(NotSelected))
    else (t.(hash := source, absorbed := Concat(t.pending), pending := []), Ok)
  }

  function AppendCanonical(t: Transcript, sha256: Digest, id: MessageId, message: seq<byte>): (Transcript, Outcome) {
    if Validate(message).Err? then (t, Validate(message))
    else if id in t.seen then
      (t, if t.seen[id] == SeenMessage(|message|, sha256(message)) then Ok else Err(MessageChanged))
    else
      var next := t.(seen := t.seen[id := SeenMessage(|message|, sha256(message))],
                     order := t.order + [OrderEntry(id, message[0])],
                     bytes := t.bytes + message);
      (if t.Selected() then next.(absorbed := t.absorbed + message) else next.(pending := t.pending + [message]), Ok)
  }

  /** The synthetic message that replaces the first ClientHello. */
  function MessageHash(d: seq<byte>): seq<byte> {
    [TYPE_MESSAGE_HASH] + PutU24(|d| % U32_LIMIT) + d
  }

  predicate HasInitialClientHello(t: Transcript) {
    |t.order| == 1 && t.order[0].id.sender.Client? && t.order[0].typ == TYPE_CLIENT_HELLO
  }

  function ApplyHelloRetryRequest(t: Transcript): (Transcript, Outcome) {
    if !t.Selected() then (t, Err(NotSelected))
    else if t.retryApplied || !HasInitialClientHello(t) then (t, Err(RetryInvalid))
    else
      var m := MessageHash(t.hash.digest(t.absorbed));
      (t.(absorbed := m, bytes := m, retryApplied := true), Ok)
  }

  datatype DuplicateCheck = New | Duplicate | Rejected(error: Error)

  function HasCanonical(t: Transcript, sha256: Digest, id: MessageId, message: seq<byte>): DuplicateCheck {
    if Validate(message).Err? then Rejected(Validate(message).error)
    else if id !in t.seen then New
    else if t.seen[id] == SeenMessage(|message|, sha256(message)) then Duplicate
    else Rejected(MessageChanged)
  }

  /** selectTranscriptHashIfReady13: nothing to do without a cipher suite or once selected. */
  function SelectIfReady(t: Transcript, suite: Option<HashSource>): (Transcript, Outcome) {
    match suite
    case None => (t, Ok)
    case Some(source) =>
      var (t', r) := SelectHash(t, source);
      (t', if r == Err(AlreadySelected) then Ok else r)
  }

  /** appendHandshake13; `retry` says that the message is a HelloRetryRequest. */
  function AppendHandshake(t: Transcript, sha256: Digest, id: MessageId, suite: Option<HashSource>, retry: bool,
                           canonical: seq<byte>): (Transcript, Outcome)
  {
    if !retry then AppendCanonical(t, sha256, id, canonical)
    else match HasCanonical(t, sha256, id, canonical)
      case Rejected(e) => (t, Err(e))
      case Duplicate => (t, Ok)
      case New =>
        var (t1, r1) := SelectIfReady(t, suite);
        if r1.Err? then (t1, r1)
        else
          var (t2, r2) := ApplyHelloRetryRequest(t1);
          if r2.Err? then (t2, r2) else AppendCanonical(t2, sha256, id, canonical)
  }

  /** sum and sumWithSuffix. */
  function Sum(t: Transcript): Option<seq<byte>> {
    if t.Selected() then Some(t.hash.digest(t.absorbed)) else None
  }

  function SumWithSuffix(t: Transcript, suffix: seq<byte>): Option<seq<byte>> {
    if t.Selected() then Some(t.hash.digest(t.bytes + suffix)) else None
  }

  class HandshakeTranscript {
    const sha256: Digest
    var newHash: HashSource
    var h: seq<byte>
    var pending: seq<seq<byte>>
    var transcript: seq<byte>
    var seen: map<MessageId, SeenMessage>
    var order: seq<OrderEntry>
    var helloRetryApplied: bool

    ghost function Value(): Transcript
      reads this
    {
      Transcript(newHash, h, pending, transcript, seen, order, helloRetryApplied)
    }

    constructor (sha256: Digest)
      ensures Value() == NewTranscript() && this.sha256 == sha256
    {
      this.sha256 := sha256;
      newHash, h, pending, transcript, seen, order, helloRetryApplied := NoFunction, [], [], [], map[], [], false;
    }

    method UseHash(source: HashSource) returns (r: Outcome)
      modifies this
      ensures (Value(), r) == SelectHash(old(Value()), source)
    {
      if source.NoFunction? {
        return Err(NotSelected);
      }
      if newHash.Usable? {
        return Err(AlreadySelected);
      }
      if source.NoHash? {
        return Err(NotSelected);
      }
      var fed: seq<byte> := [];
      var messages := pending;
      for i := 0 to |messages|
        invariant Value() == old(Value())
        invariant fed == Concat(messages[..i])
      {
        ConcatSnoc(messages[..i], messages[i]);
        assert messages[..i] + [messages[i]] == messages[..i + 1];
        fed := fed + messages[i];
      }
      assert messages[..|messages|] == messages;
      newHash, h, pending := source, fed, [];
      return Ok;
    }

    method Remember(id: MessageId, message: seq<byte>) returns (r: Outcome)
      modifies this
      ensures (Value(), r) == AppendCanonical(old(Value()), sha256, id, message)
    {
      if Validate(message).Err? {
        return Validate(message);
      }
      var fingerprint := sha256(message);
      if id in seen {
        if seen[id].length == |message| && seen[id].fingerprint == fingerprint {
          return Ok;
        }
        return Err(MessageChanged);
      }
      seen := seen[id := SeenMessage(|message|, fingerprint)];
      order := order + [OrderEntry(id, message[0])];
      transcript := transcript + message;
      if !newHash.Usable? {
        pending := pending + [message];
        return Ok;
      }
      h := h + message;
      return Ok;
    }

    method ApplyRetry() returns (r: Outcome)
      modifies this
      ensures (Value(), r) == ApplyHelloRetryRequest(old(Value()))
    {
      if !newHash.Usable? {
        return Err(NotSelected);
      }
      if helloRetryApplied ||
         !(|order| == 1 && order[0].id.sender.Client? && order[0].typ == TYPE_CLIENT_HELLO) {
        return Err(RetryInvalid);
      }
      var messageHash := MessageHash(newHash.digest(h));
      h, transcript, helloRetryApplied := messageHash, messageHash, true;
      return Ok;
    }

    method AppendMessage(sender: Sender, suite: Option<HashSource>, seqNo: u16, retry: bool, canonical: seq<byte>)
      returns (r: Outcome)
      modifies this
      ensures (Value(), r) == AppendHandshake(old(Value()), sha256, MessageId(sender, seqNo), suite, retry, canonical)
    {
      var id := MessageId(sender, seqNo);
      if retry {
        var v := Validate(canonical);
        if v.Err? {
          return v;
        }
        if id in seen {
          if seen[id].length == |canonical| && seen[id].fingerprint == sha256(canonical) {
            return Ok;
          }
          return Err(MessageChanged);
        }
        if suite.Some? {
          r := UseHash(suite.value);
          if r.Err? && !r.error.AlreadySelected? {
            return r;
          }
        }
        r := ApplyRetry();
        if r.Err? {
          return r;
        }
      }
      r := Remember(id, canonical);
    }

    method TranscriptHash() returns (r: Option<seq<byte>>)
      ensures r == Sum(Value())
    {
      r := if newHash.Usable? then Some(newHash.digest(h)) else None;
    }

    method HashWithSuffix(suffix: seq<byte>) returns (r: Option<seq<byte>>)
      ensures r == SumWithSuffix(Value(), suffix)
    {
      if !newHash.Usable? {
        return None;
      }
      var fed: seq<byte> := transcript;
      fed := fed + suffix;
      return Some(newHash.digest(fed));
    }
  }
}
