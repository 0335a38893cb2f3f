/** Committing a prepared DTLS 1.3 flight: numbering, the transcript, and the point at which the handshake
    traffic secrets are derived (dtls/handshaker_13.go, commitPreparedFlights). */
module Commit13 {
  import opened Options
  import opened Bytes
  import opened HandshakeWire
  import opened Transcript13
  import opened TranscriptRefinement

  /** A handshake message; `body` is None when its own Marshal fails, `retry` marks a HelloRetryRequest. */
  datatype Message = Message(typ: byte, body: Option<seq<byte>>, retry: bool)

  datatype Content = Handshake(messageSequence: u16, message: Option<Message>) | OtherContent

  datatype Packet = Packet(epoch: u16, shouldEncrypt: bool, content: Content)

  datatype CommitError = TranscriptError(error: Error) | MarshalError | CipherSuiteNotSet | DeriveError

  datatype Result = Done | Failed(error: CommitError)

  datatype Secrets = Secrets(client: seq<byte>, server: seq<byte>)

  predicate Absent(s: Secrets) {
    s.client == [] && s.server == []
  }

  /** appendOutboundHandshakeFlight13 for one packet. */
  function AppendPacket(t: Transcript, sha256: Digest, sender: Sender, suite: Option<HashSource>,
                        p: Packet): (Transcript, Result) {
    if p.content.OtherContent? || p.content.message.None? then (t, Done)
    else
      var m := p.content.message.value;
      if m.body.None? then (t, Failed(MarshalError))
      else match CanonicalHandshake(MarshalHandshake(m.typ, p.content.messageSequence, m.body.value))
        case NotCanonical(e) => (t, Failed(TranscriptError(e)))
        case Canonical(c) =>
          var (t', r) := AppendHandshake(t, sha256, MessageId(sender, p.content.messageSequence), suite, m.retry, c);
          (t', if r.Ok? then Done else Failed(TranscriptError(r.error)))
  }

  /** appendOutboundHandshakeFlight13: packet after packet, stopping at the first failure. */
  function AppendFlight(t: Transcript, sha256: Digest, sender: Sender, suite: Option<HashSource>,
                        pkts: seq<Packet>): (Transcript, Result)
    decreases |pkts|
  {
    if pkts == [] then (t, Done)
    else
      var (t', r) := AppendPacket(t, sha256, sender, suite, pkts[0]);
      if r.Failed? then (t', r) else AppendFlight(t', sha256, sender, suite, pkts[1..])
  }

  lemma {:induction false} AppendFlightSplit(t: Transcript, sha256: Digest, sender: Sender, suite: Option<HashSource>,
                                             a: seq<Packet>, b: seq<Packet>)
    ensures AppendFlight(t, sha256, sender, suite, a + b) ==
            var (t1, r1) := AppendFlight(t, sha256, sender, suite, a);
            if r1.Failed? then (t1, r1) else AppendFlight(t1, sha256, sender, suite, b)
    decreases |a|
  {
    if a == [] {
      assert a + b == b;
    } else {
      assert (a + b)[1..] == a[1..] + b;
      var (t', r) := AppendPacket(t, sha256, sender, suite, a[0]);
      AppendFlightSplit(t', sha256, sender, suite, a[1..], b);
    }
  }

  /** `t` is `u`, except that the cipher suite's hash may already have been selected. */
  ghost predicate Ahead(t: Transcript, u: Transcript, source: HashSource) {
    source.Usable? && (t == u || (!u.Selected() && t == SelectHash(u, source).0))
  }

  lemma AppendAhead(t: Transcript, u: Transcript, source: HashSource, sha256: Digest, id: MessageId, retry: bool,
                    c: seq<byte>)
    requires Ahead(t, u, source)
    ensures var (t', r) := AppendHandshake(t, sha256, id, Some(source), retry, c);
            var (u', q) := AppendHandshake(u, sha256, id, Some(source), retry, c);
            r == q && Ahead(t', u', source)
  {
    ConcatSnoc(u.pending, c);
  }

  lemma {:induction false} FlightAhead(t: Transcript, u: Transcript, source: HashSource, sha256: Digest,
                                       sender: Sender, pkts: seq<Packet>)
    requires Ahead(t, u, source)
    ensures var (t', r) := AppendFlight(t, sha256, sender, Some(source), pkts);
            var (u', q) := AppendFlight(u, sha256, sender, Some(source), pkts);
            r == q && Ahead(t', u', source)
    decreases |pkts|
  {
    if pkts != [] {
      var p := pkts[0];
      if p.content.Handshake? && p.content.message.Some? && p.content.message.value.body.Some? {
        var m := p.content.message.value;
        match CanonicalHandshake(MarshalHandshake(m.typ, p.content.messageSequence, m.body.value))
        case NotCanonical(_) =>
        case Canonical(c) => AppendAhead(t, u, source, sha256, MessageId(sender, p.content.messageSequence), m.retry,
                                         c);
      }
      FlightAhead(AppendPacket(t, sha256, sender, Some(source), p).0,
                  AppendPacket(u, sha256, sender, Some(source), p).0,
                  source, sha256, sender, pkts[1..]);
    }
  }

  lemma CanonicalHolds(t: Transcript, sha256: Digest, id: MessageId, c: seq<byte>)
    requires HoldsBytes(t)
    ensures HoldsBytes(AppendCanonical(t, sha256, id, c).0) && AppendCanonical(t, sha256, id, c).0.hash == t.hash
  {
    ConcatSnoc(t.pending, c);
  }

  lemma SelectHolds(t: Transcript, suite: Option<HashSource>)
    requires HoldsBytes(t)
    ensures HoldsBytes(SelectIfReady(t, suite).0) && (t.Selected() ==> SelectIfReady(t, suite).0.hash == t.hash)
  {
  }

  lemma RetryHolds(t: Transcript)
    requires HoldsBytes(t)
    ensures HoldsBytes(ApplyHelloRetryRequest(t).0) && ApplyHelloRetryRequest(t).0.hash == t.hash
  {
  }

  lemma AppendHolds(t: Transcript, sha256: Digest, id: MessageId, suite: Option<HashSource>, retry: bool, c: seq<byte>)
    requires HoldsBytes(t)
    ensures HoldsBytes(AppendHandshake(t, sha256, id, suite, retry, c).0)
    ensures t.Selected() ==> AppendHandshake(t, sha256, id, suite, retry, c).0.hash == t.hash
  {
    CanonicalHolds(t, sha256, id, c);
    SelectHolds(t, suite);
    var t1 := SelectIfReady(t, suite).0;
    RetryHolds(t1);
    CanonicalHolds(ApplyHelloRetryRequest(t1).0, sha256, id, c);
  }

  /** One packet: the bytes stay held, and a selected hash stays selected. */
  lemma PacketKeeps(t: Transcript, sha256: Digest, sender: Sender, suite: Option<HashSource>, p: Packet)
    requires HoldsBytes(t)
    ensures HoldsBytes(AppendPacket(t, sha256, sender, suite, p).0)
    ensures t.Selected() ==> AppendPacket(t, sha256, sender, suite, p).0.hash == t.hash
  {
    if p.content.Handshake? && p.content.message.Some? && p.content.message.value.body.Some? {
      var m := p.content.message.value;
      match CanonicalHandshake(MarshalHandshake(m.typ, p.content.messageSequence, m.body.value))
      case NotCanonical(_) =>
      case Canonical(c) => AppendHolds(t, sha256, MessageId(sender, p.content.messageSequence), suite, m.retry, c);
    }
  }

  lemma {:induction false} FlightKeeps(t: Transcript, sha256: Digest, sender: Sender, suite: Option<HashSource>,
                                       pkts: seq<Packet>)
    requires HoldsBytes(t)
    ensures HoldsBytes(AppendFlight(t, sha256, sender, suite, pkts).0)
    ensures t.Selected() ==> AppendFlight(t, sha256, sender, suite, pkts).0.hash == t.hash
    decreases |pkts|
  {
    if pkts != [] {
      PacketKeeps(t, sha256, sender, suite, pkts[0]);
      FlightKeeps(AppendPacket(t, sha256, sender, suite, pkts[0]).0, sha256, sender, suite, pkts[1..]);
    }
  }

  /** Index of the first packet that is sent encrypted, or the length. */
  function ProtectedStart(pkts: seq<Packet>): (k: nat)
    ensures k <= |pkts|
    ensures forall j :: 0 <= j < k ==> !pkts[j].shouldEncrypt
    ensures k < |pkts| ==> pkts[k].shouldEncrypt
  {
    if pkts == [] || pkts[0].shouldEncrypt then 0 else 1 + ProtectedStart(pkts[1..])
  }

  datatype Committed = Committed(t: Transcript, secrets: Secrets, result: Result)

  /** deriveAndStoreHandshakeTrafficSecrets13; `derive` is the key schedule on a transcript hash. */
  function DeriveSecrets(t: Transcript, suite: Option<HashSource>, secrets: Secrets,
                         derive: seq<byte> -> Option<Secrets>): Committed {
    if suite.None? then Committed(t, secrets, Failed(CipherSuiteNotSet))
    else
      var (t', r) := SelectIfReady(t, suite);
      if r.Err? then Committed(t', secrets, Failed(TranscriptError(r.error)))
      else match Sum(t')
        case None => Committed(t', secrets, Failed(TranscriptError(NotSelected)))
        case Some(h) =>
          match derive(h)
          case None => Committed(t', secrets, Failed(DeriveError))
          case Some(s) => Committed(t', s, Done)
  }

  /** The transcript part of commitPreparedFlights, on packets already numbered. */
  function Commit(t: Transcript, sha256: Digest, sender: Sender, suite: Option<HashSource>, secrets: Secrets,
                  derive: seq<byte> -> Option<Secrets>, pkts: seq<Packet>): Committed
  {
    var k := ProtectedStart(pkts);
    var (t1, r1) := AppendFlight(t, sha256, sender, suite, pkts[..k]);
    if k == |pkts| || r1.Failed? then Committed(t1, secrets, r1)
    else
      var d := if Absent(secrets) then DeriveSecrets(t1, suite, secrets, derive) else Committed(t1, secrets, Done);
      if d.result.Failed? then d
      else
        var (t2, r2) := AppendFlight(d.t, sha256, sender, suite, pkts[k..]);
        Committed(t2, d.secrets, r2)
  }

  /** Two transcripts that record the same messages: equal up to whether the hash is selected yet. */
  ghost predicate SameContent(t: Transcript, u: Transcript) {
    t.bytes == u.bytes && t.seen == u.seen && t.order == u.order && t.retryApplied == u.retryApplied
  }

  /** The secrets are derived on the way: there is a protected packet, no secrets yet, and what precedes it appends. */
  predicate Derives(t: Transcript, sha256: Digest, sender: Sender, suite: Option<HashSource>, secrets: Secrets,
                    pkts: seq<Packet>)
  {
    var k := ProtectedStart(pkts);
    k < |pkts| && Absent(secrets) && AppendFlight(t, sha256, sender, suite, pkts[..k]).1.Done?
  }

  lemma OnePassInTwo(t: Transcript, sha256: Digest, sender: Sender, suite: Option<HashSource>, pkts: seq<Packet>,
                     k: nat)
    requires k <= |pkts|
    ensures AppendFlight(t, sha256, sender, suite, pkts) ==
            var (t1, r1) := AppendFlight(t, sha256, sender, suite, pkts[..k]);
            if r1.Failed? then (t1, r1) else AppendFlight(t1, sha256, sender, suite, pkts[k..])
  {
    assert pkts == pkts[..k] + pkts[k..];
    AppendFlightSplit(t, sha256, sender, suite, pkts[..k], pkts[k..]);
  }

  /** Once what precedes the first protected packet is appended: derivation and the rest, against the rest alone. */
  lemma DerivedOutcome(t: Transcript, sha256: Digest, sender: Sender, suite: Option<HashSource>, secrets: Secrets,
                       derive: seq<byte> -> Option<Secrets>, rest: seq<Packet>)
    requires HoldsBytes(t) && DeriveSecrets(t, suite, secrets, derive).result.Done?
    ensures AppendFlight(DeriveSecrets(t, suite, secrets, derive).t, sha256, sender, suite, rest).1 ==
            AppendFlight(t, sha256, sender, suite, rest).1
  {
    DerivedMidFlight(t, sha256, sender, suite, secrets, derive, rest);
  }

  /** For every prepared flight: a commit ends as one pass over the whole flight does, except that a failed derivation
      stops it first. So it fails exactly when the one pass fails or the derivation does. */
  lemma CommitOutcome(t: Transcript, sha256: Digest, sender: Sender, suite: Option<HashSource>, secrets: Secrets,
                      derive: seq<byte> -> Option<Secrets>, pkts: seq<Packet>)
    requires HoldsBytes(t)
    ensures var c := Commit(t, sha256, sender, suite, secrets, derive, pkts);
            var onePass := AppendFlight(t, sha256, sender, suite, pkts).1;
            var t1 := AppendFlight(t, sha256, sender, suite, pkts[..ProtectedStart(pkts)]).0;
            var derived := DeriveSecrets(t1, suite, secrets, derive).result;
            if Derives(t, sha256, sender, suite, secrets, pkts) && derived.Failed? then c.result == derived
            else c.result == onePass
  {
    var k := ProtectedStart(pkts);
    OnePassInTwo(t, sha256, sender, suite, pkts, k);
    var (t1, r1) := AppendFlight(t, sha256, sender, suite, pkts[..k]);
    if k == |pkts| {
      assert pkts[..k] == pkts;
    } else if r1.Done? && Absent(secrets) && DeriveSecrets(t1, suite, secrets, derive).result.Done? {
      FlightKeeps(t, sha256, sender, suite, pkts[..k]);
      DerivedOutcome(t1, sha256, sender, suite, secrets, derive, pkts[k..]);
    }
  }

  /** For every prepared flight that commits: the transcript is the one a single pass over the whole flight
      gives, and secrets derived on the way come from the transcript hash of everything before the first
      protected packet, no more and no less. */
  lemma CommitIsOnePass(t: Transcript, sha256: Digest, sender: Sender, suite: Option<HashSource>, secrets: Secrets,
                        derive: seq<byte> -> Option<Secrets>, pkts: seq<Packet>)
    requires HoldsBytes(t) && Commit(t, sha256, sender, suite, secrets, derive, pkts).result.Done?
    ensures var c := Commit(t, sha256, sender, suite, secrets, derive, pkts);
            var k := ProtectedStart(pkts);
            var (whole, r) := AppendFlight(t, sha256, sender, suite, pkts);
            && r.Done? && SameContent(c.t, whole)
            && (k == |pkts| || !Absent(secrets) ==> c.secrets == secrets && c.t == whole)
            && (k < |pkts| && Absent(secrets) ==>
                  c.t.Selected() &&
                  derive(c.t.hash.digest(AppendFlight(t, sha256, sender, suite, pkts[..k]).0.bytes)) == Some(c.secrets))
  {
    var k := ProtectedStart(pkts);
    assert pkts == pkts[..k] + pkts[k..];
    AppendFlightSplit(t, sha256, sender, suite, pkts[..k], pkts[k..]);
    FlightKeeps(t, sha256, sender, suite, pkts[..k]);
    if k < |pkts| && Absent(secrets) {
      var t1 := AppendFlight(t, sha256, sender, suite, pkts[..k]).0;
      DerivedMidFlight(t1, sha256, sender, suite, secrets, derive, pkts[k..]);
    }
  }

  /** Deriving between two appends: the second append records what it would have recorded anyway. */
  lemma DerivedMidFlight(t: Transcript, sha256: Digest, sender: Sender, suite: Option<HashSource>, secrets: Secrets,
                         derive: seq<byte> -> Option<Secrets>, rest: seq<Packet>)
    requires HoldsBytes(t) && DeriveSecrets(t, suite, secrets, derive).result.Done?
    ensures var d := DeriveSecrets(t, suite, secrets, derive);
            var (t2, r2) := AppendFlight(d.t, sha256, sender, suite, rest);
            var (u2, q2) := AppendFlight(t, sha256, sender, suite, rest);
            && r2 == q2 && SameContent(t2, u2)
            && t2.Selected() && derive(t2.hash.digest(t.bytes)) == Some(d.secrets)
  {
    var d := DeriveSecrets(t, suite, secrets, derive);
    FlightKeeps(d.t, sha256, sender, suite, rest);
    if d.t != t {
      FlightAhead(d.t, t, suite.value, sha256, sender, rest);
    }
  }

  function SenderFor(isClient: bool): Sender {
    if isClient then Client else Server
  }

  function HandshakesBefore(pkts: seq<Packet>, k: nat): nat
    requires k <= |pkts|
  {
    if k == 0 then 0 else HandshakesBefore(pkts, k - 1) + if pkts[k - 1].content.Handshake? then 1 else 0
  }

  /** Packet `k` with its epoch shifted and, if it is a handshake message, its number. */
  function StampedAt(pkts: seq<Packet>, k: nat, first: int, epoch: u16): Packet
    requires k < |pkts|
  {
    var p := pkts[k].(epoch := Wrap16(pkts[k].epoch + epoch));
    if p.content.OtherContent? then p
    else p.(content := p.content.(messageSequence := Wrap16(first + HandshakesBefore(pkts, k))))
  }

  /** The highest epoch of a flight, at least `base`. */
  function HighestEpoch(pkts: seq<Packet>, base: u16): u16 {
    if pkts == [] then base
    else
      var rest := HighestEpoch(pkts[..|pkts| - 1], base);
      if pkts[|pkts| - 1].epoch > rest then pkts[|pkts| - 1].epoch else rest
  }

  lemma HighestSnoc(pkts: seq<Packet>, p: Packet, base: u16)
    ensures var rest := HighestEpoch(pkts, base);
            HighestEpoch(pkts + [p], base) == if p.epoch > rest then p.epoch else rest
  {
    assert (pkts + [p])[..|pkts|] == pkts;
  }

  /** The loop's protectedFlightStart so far; `none` until a protected packet is seen. */
  ghost predicate StartSoFar(pkts: seq<Packet>, k: nat, none: nat) {
    if k == none then forall j :: 0 <= j < |pkts| ==> !pkts[j].shouldEncrypt
    else k < |pkts| && pkts[k].shouldEncrypt && forall j :: 0 <= j < k ==> !pkts[j].shouldEncrypt
  }

  lemma StartSnoc(pkts: seq<Packet>, p: Packet, k: nat, none: nat)
    requires StartSoFar(pkts, k, none) && |pkts| < none
    ensures StartSoFar(pkts + [p], if p.shouldEncrypt && k == none then |pkts| else k, none)
  {
  }

  lemma StartDone(pkts: seq<Packet>, k: nat)
    requires StartSoFar(pkts, k, |pkts|)
    ensures k == ProtectedStart(pkts)
  {
    if k < |pkts| { assert pkts[k].shouldEncrypt; }
  }

  class Fsm {
    const isClient: bool
    const initialEpoch: u16
    const transcript: HandshakeTranscript
    var suite: Option<HashSource>
    var secrets: Secrets
    var handshakeSendSequence: int
    var localEpoch: u16

    constructor (isClient: bool, initialEpoch: u16, transcript: HandshakeTranscript, suite: Option<HashSource>)
      ensures this.isClient == isClient && this.initialEpoch == initialEpoch && this.transcript == transcript
      ensures this.suite == suite && Absent(secrets) && handshakeSendSequence == 0 && localEpoch == initialEpoch
    {
      this.isClient, this.initialEpoch, this.transcript, this.suite := isClient, initialEpoch, transcript, suite;
      secrets, handshakeSendSequence, localEpoch := Secrets([], []), 0, initialEpoch;
    }

    method AppendOutboundFlight(pkts: seq<Packet>) returns (r: Result)
      modifies transcript
      ensures (transcript.Value(), r) ==
              AppendFlight(old(transcript.Value()), transcript.sha256, SenderFor(isClient), suite, pkts)
    {
      var i := 0;
      while i < |pkts|
        invariant 0 <= i <= |pkts|
        invariant AppendFlight(transcript.Value(), transcript.sha256, SenderFor(isClient), suite, pkts[i..]) ==
                  AppendFlight(old(transcript.Value()), transcript.sha256, SenderFor(isClient), suite, pkts)
      {
        assert pkts[i..][1..] == pkts[i + 1..];
        var p := pkts[i];
        if p.content.Handshake? && p.content.message.Some? {
          var m := p.content.message.value;
          if m.body.None? {
            return Failed(MarshalError);
          }
          var canonical := CanonicalHandshake(MarshalHandshake(m.typ, p.content.messageSequence, m.body.value));
          if canonical.NotCanonical? {
            return Failed(TranscriptError(canonical.error));
          }
          var q := transcript.AppendMessage(SenderFor(isClient), suite, p.content.messageSequence, m.retry,
                                            canonical.bytes);
          if q.Err? {
            return Failed(TranscriptError(q.error));
          }
        }
        i := i + 1;
      }
      return Done;
    }

    method DeriveAndStore(derive: seq<byte> -> Option<Secrets>) returns (r: Result)
      modifies this`secrets, transcript
      ensures Committed(transcript.Value(), secrets, r) ==
              DeriveSecrets(old(transcript.Value()), suite, old(secrets), derive)
    {
      if suite.None? {
        return Failed(CipherSuiteNotSet);
      }
      var q := transcript.UseHash(suite.value);
      if q.Err? && !q.error.AlreadySelected? {
        return Failed(TranscriptError(q.error));
      }
      var h := transcript.TranscriptHash();
      if h.None? {
        return Failed(TranscriptError(NotSelected));
      }
      var s := derive(h.value);
      if s.None? {
        return Failed(DeriveError);
      }
      secrets := s.value;
      return Done;
    }

    /** One packet of the numbering loop. */
    method Stamp(flights: seq<Packet>, i: nat, ghost first: int) returns (p: Packet)
      requires i < |flights| && handshakeSendSequence == first + HandshakesBefore(flights, i)
      modifies this`handshakeSendSequence
      ensures p == StampedAt(flights, i, first, initialEpoch)
      ensures handshakeSendSequence == first + HandshakesBefore(flights, i + 1)
    {
      p := flights[i].(epoch := Wrap16(flights[i].epoch + initialEpoch));
      if p.content.Handshake? {
        p := p.(content := p.content.(messageSequence := Wrap16(handshakeSendSequence)));
        handshakeSendSequence := handshakeSendSequence + 1;
      }
    }

    /** The numbering loop. */
    method StampFlight(flights: seq<Packet>) returns (out: seq<Packet>, nextEpoch: u16, protectedStart: nat)
      modifies this`handshakeSendSequence
      ensures |out| == |flights| && protectedStart == ProtectedStart(out)
      ensures forall k :: 0 <= k < |out| ==> out[k] == StampedAt(flights, k, old(handshakeSendSequence), initialEpoch)
      ensures handshakeSendSequence == old(handshakeSendSequence) + HandshakesBefore(flights, |flights|)
      ensures nextEpoch == HighestEpoch(out, initialEpoch)
    {
      ghost var first := handshakeSendSequence;
      out, nextEpoch, protectedStart := [], initialEpoch, |flights|;
      for i := 0 to |flights|
        invariant |out| == i && handshakeSendSequence == first + HandshakesBefore(flights, i)
        invariant forall k :: 0 <= k < i ==> out[k] == StampedAt(flights, k, first, initialEpoch)
        invariant nextEpoch == HighestEpoch(out, initialEpoch) && StartSoFar(out, protectedStart, |flights|)
      {
        var p := Stamp(flights, i, first);
        HighestSnoc(out, p, initialEpoch);
        StartSnoc(out, p, protectedStart, |flights|);
        if p.epoch > nextEpoch {
          nextEpoch := p.epoch;
        }
        if p.shouldEncrypt && protectedStart == |flights| {
          protectedStart := i;
        }
        out := out + [p];
      }
      StartDone(out, protectedStart);
    }

    method CommitPreparedFlights(flights: seq<Packet>, derive: seq<byte> -> Option<Secrets>)
      returns (out: seq<Packet>, r: Result)
      modifies this`secrets, this`handshakeSendSequence, this`localEpoch, transcript
      ensures |out| == |flights| &&
              forall k :: 0 <= k < |out| ==> out[k] == StampedAt(flights, k, old(handshakeSendSequence), initialEpoch)
      ensures Committed(transcript.Value(), secrets, r) ==
              Commit(old(transcript.Value()), transcript.sha256, SenderFor(isClient), suite, old(secrets), derive, out)
      ensures r.Failed? ==> localEpoch == old(localEpoch)
      ensures r.Done? ==> var top := HighestEpoch(out, initialEpoch);
                          localEpoch == if top == initialEpoch then old(localEpoch) else top
    {
      var nextEpoch, start;
      out, nextEpoch, start := StampFlight(flights);
      if start == |out| {
        assert out[..start] == out;
        r := AppendOutboundFlight(out);
        if r.Failed? {
          return;
        }
      } else {
        r := AppendOutboundFlight(out[..start]);
        if r.Failed? {
          return;
        }
        if |secrets.client| == 0 && |secrets.server| == 0 {
          r := DeriveAndStore(derive);
          if r.Failed? {
            return;
          }
        }
        r := AppendOutboundFlight(out[start..]);
        if r.Failed? {
          return;
        }
      }
      if initialEpoch != nextEpoch {
        localEpoch := nextEpoch;
      }
    }
  }
}
