/** The client's flight 5: the hash inputs flight5Generate computes before sending, from predicted
    message sequence numbers, against what the cache holds once prepare has stamped the packets and
    writePackets has pushed them (dtls/internal/flight/flight12/flight5handler.go, dtls/handshaker.go,
    dtls/conn.go). */
module Flight5 {
  import opened Options
  import opened Bytes
  import opened HandshakeWire
  import opened FlightCache

  datatype Content = HandshakeContent(typ: byte, messageSequence: u16, body: seq<byte>) | ChangeCipherSpec

  datatype Packet = Packet(epoch: u16, content: Content)

  /** A handshake message before it is given a number. */
  datatype Unsent = Unsent(typ: byte, body: seq<byte>)

  function Numbered(m: Unsent, seqNo: int): Content {
    HandshakeContent(m.typ, Wrap16(seqNo), m.body)
  }

  function Raw(m: Unsent, seqNo: int): seq<byte> {
    MarshalHandshake(m.typ, Wrap16(seqNo), m.body)
  }

  /** The bytes of consecutive messages numbered from `first`. */
  function RawFrom(msgs: seq<Unsent>, first: int): seq<byte> {
    if msgs == [] then []
    else RawFrom(msgs[..|msgs| - 1], first) + Raw(msgs[|msgs| - 1], first + |msgs| - 1)
  }

  /** How many handshake messages precede packet `k`. */
  function HandshakesBefore(pkts: seq<Packet>, k: nat): nat
    requires k <= |pkts|
  {
    if k == 0 then 0
    else HandshakesBefore(pkts, k - 1) + if pkts[k - 1].content.HandshakeContent? then 1 else 0
  }

  /** Packet `k` as prepare leaves it: epoch shifted, and its number counted from `first`. */
  function StampedAt(pkts: seq<Packet>, k: nat, first: int, epoch: u16): Packet
    requires k < |pkts|
  {
    var p := pkts[k];
    Packet(Wrap16(p.epoch + epoch),
           if p.content.ChangeCipherSpec? then p.content
           else p.content.(messageSequence := Wrap16(first + HandshakesBefore(pkts, k))))
  }

  /** The stamping loop of handshakeFSM12.prepare. */
  method Prepare(pkts: seq<Packet>, sendSequence: int, initialEpoch: u16) returns (out: seq<Packet>, next: int)
    ensures |out| == |pkts| && next == sendSequence + HandshakesBefore(pkts, |pkts|)
    ensures forall k :: 0 <= k < |pkts| ==> out[k] == StampedAt(pkts, k, sendSequence, initialEpoch)
  {
    out, next := [], sendSequence;
    for i := 0 to |pkts|
      invariant |out| == i && next == sendSequence + HandshakesBefore(pkts, i)
      invariant forall k :: 0 <= k < i ==> out[k] == StampedAt(pkts, k, sendSequence, initialEpoch)
    {
      var p := pkts[i].(epoch := Wrap16(pkts[i].epoch + initialEpoch));
      if p.content.HandshakeContent? {
        p := p.(content := p.content.(messageSequence := Wrap16(next)));
        next := next + 1;
      }
      out := out + [p];
    }
  }

  function CacheItem(p: Packet, isClient: bool): Item
    requires p.content.HandshakeContent?
  {
    Item(p.content.typ, isClient, p.epoch, p.content.messageSequence,
         MarshalHandshake(p.content.typ, p.content.messageSequence, p.content.body))
  }

  /** What writePackets adds to the sender's own cache. */
  function CacheItems(pkts: seq<Packet>, isClient: bool): seq<Item> {
    if pkts == [] then []
    else
      var n := |pkts| - 1;
      CacheItems(pkts[..n], isClient) +
      if pkts[n].content.HandshakeContent? then [CacheItem(pkts[n], isClient)] else []
  }

  method WritePackets(cache: Cache, pkts: seq<Packet>, isClient: bool)
    modifies cache
    ensures cache.items == old(cache.items) + CacheItems(pkts, isClient)
  {
    for i := 0 to |pkts|
      invariant cache.items == old(cache.items) + CacheItems(pkts[..i], isClient)
    {
      assert pkts[..i + 1][..i] == pkts[..i];
      match pkts[i].content
      case HandshakeContent(typ, s, body) =>
        cache.Push(MarshalHandshake(typ, s, body), pkts[i].epoch, s, typ, isClient);
      case ChangeCipherSpec =>
    }
    assert pkts[..|pkts|] == pkts;
  }

  /** What the certificate, the key exchange and the signer contribute. `sign` and `verifyData` stand for
      the signature and the Finished PRF, as functions of the bytes they cover. */
  datatype Inputs = Inputs(certificate: Option<seq<byte>>, keyExchange: seq<byte>,
                           sign: Option<seq<byte> -> seq<byte>>, verifyData: seq<byte> -> seq<byte>)

  /** The messages that are numbered ahead of time: an optional Certificate, then ClientKeyExchange. */
  function Leading(inp: Inputs): seq<Unsent> {
    (if inp.certificate.Some? then [Unsent(CERTIFICATE, inp.certificate.value)] else []) +
    [Unsent(CLIENT_KEY_EXCHANGE, inp.keyExchange)]
  }

  /** The CertificateVerify that follows them when the client holds a signing key. */
  function Verify(inp: Inputs, signed: seq<byte>): seq<Unsent> {
    if inp.certificate.Some? && inp.sign.Some? then [Unsent(CERTIFICATE_VERIFY, inp.sign.value(signed))] else []
  }

  function FinishedRules(epoch: u16): seq<Rule> {
    SessionRules(epoch) + [Rule(CERTIFICATE_VERIFY, epoch, true, false)]
  }

  function Plain(msgs: seq<Unsent>, first: int): seq<Packet> {
    seq(|msgs|, k requires 0 <= k < |msgs| => Packet(0, Numbered(msgs[k], first + k)))
  }

  /** The bytes covered before anything is sent: by CertificateVerify, by the session hash unless the cipher suite is
      already initialized, and by Finished unless its verify data is already known. */
  datatype Predicted = Predicted(signedInput: seq<byte>, sessionInput: Option<seq<byte>>,
                                 finishedInput: Option<seq<byte>>)

  lemma Snoc(msgs: seq<Unsent>, m: Unsent, first: int)
    ensures RawFrom(msgs + [m], first) == RawFrom(msgs, first) + Raw(m, first + |msgs|)
    ensures Plain(msgs + [m], first) == Plain(msgs, first) + [Packet(0, Numbered(m, first + |msgs|))]
  {
    assert (msgs + [m])[..|msgs|] == msgs;
  }

  lemma NextMessage(msgs: seq<Unsent>, i: nat, first: int, seqPred: u16)
    requires i < |msgs| && seqPred == Wrap16(first + i)
    ensures Plain(msgs[..i + 1], first) ==
            Plain(msgs[..i], first) + [Packet(0, HandshakeContent(msgs[i].typ, seqPred, msgs[i].body))]
    ensures RawFrom(msgs[..i + 1], first) ==
            RawFrom(msgs[..i], first) + MarshalHandshake(msgs[i].typ, seqPred, msgs[i].body)
  {
    Snoc(msgs[..i], msgs[i], first);
    assert msgs[..i] + [msgs[i]] == msgs[..i + 1];
  }

  /** The loop that numbers the not-yet-sent messages and merges their bytes. */
  method PredictNumbers(msgs: seq<Unsent>, sendSequence: int)
    returns (pkts: seq<Packet>, merged: seq<byte>, seqPred: u16)
    ensures pkts == Plain(msgs, sendSequence) && merged == RawFrom(msgs, sendSequence)
    ensures seqPred == Wrap16(sendSequence + |msgs|)
  {
    pkts, merged, seqPred := [], [], Wrap16(sendSequence);
    for i := 0 to |msgs|
      invariant seqPred == Wrap16(sendSequence + i)
      invariant pkts == Plain(msgs[..i], sendSequence) && merged == RawFrom(msgs[..i], sendSequence)
    {
      NextMessage(msgs, i, sendSequence, seqPred);
      pkts := pkts + [Packet(0, HandshakeContent(msgs[i].typ, seqPred, msgs[i].body))];
      merged := merged + MarshalHandshake(msgs[i].typ, seqPred, msgs[i].body);
      Wrap16Next(sendSequence + i);
      seqPred := Wrap16(seqPred + 1);
    }
    assert msgs[..|msgs|] == msgs;
  }

  function ClientFinishedRule(epoch: u16): Rule {
    Rule(FINISHED, Wrap16(epoch + 1), true, false)
  }

  /** The cached messages, then those still to be sent. */
  function SessionInput(items: seq<Item>, epoch: u16, inp: Inputs, first: int): seq<byte> {
    Merge(items, SessionRules(epoch)) + RawFrom(Leading(inp), first)
  }

  function FinishedInput(items: seq<Item>, epoch: u16, inp: Inputs, signed: seq<byte>, first: int): seq<byte> {
    Merge(items, FinishedRules(epoch) + [ClientFinishedRule(epoch)])
    + RawFrom(Leading(inp) + Verify(inp, signed), first)
  }

  method Generate(cache: Cache, sendSequence: int, epoch: u16, inp: Inputs, initialized: bool,
                  localVerifyData: seq<byte>)
    returns (pkts: seq<Packet>, pred: Predicted, verifyData: seq<byte>)
    ensures pred.signedInput == SessionInput(cache.items, epoch, inp, sendSequence)
    ensures pred.sessionInput == if initialized then None else Some(pred.signedInput)
    ensures pred.finishedInput == if localVerifyData != [] then None
                                  else Some(FinishedInput(cache.items, epoch, inp, pred.signedInput, sendSequence))
    ensures verifyData == if localVerifyData != [] then localVerifyData else inp.verifyData(pred.finishedInput.value)
    ensures pkts == Plain(Leading(inp) + Verify(inp, pred.signedInput), sendSequence) +
                    [Packet(0, ChangeCipherSpec), Packet(1, HandshakeContent(FINISHED, 0, verifyData))]
  {
    var msgs := Leading(inp);
    var merged, seqPred;
    pkts, merged, seqPred := PredictNumbers(msgs, sendSequence);
    var plainText := cache.PullAndMerge(SessionRules(epoch));
    var signedInput := plainText + merged;
    var sessionInput := if initialized then None else Some(signedInput);
    if inp.certificate.Some? && inp.sign.Some? {
      var verify := Unsent(CERTIFICATE_VERIFY, inp.sign.value(signedInput));
      Snoc(msgs, verify, sendSequence);
      pkts := pkts + [Packet(0, HandshakeContent(CERTIFICATE_VERIFY, seqPred, verify.body))];
      merged := merged + MarshalHandshake(CERTIFICATE_VERIFY, seqPred, verify.body);
    } else {
      assert msgs + Verify(inp, signedInput) == msgs;
    }
    pkts := pkts + [Packet(0, ChangeCipherSpec)];
    verifyData := localVerifyData;
    var finishedInput := None;
    if |localVerifyData| == 0 {
      plainText := cache.PullAndMerge(FinishedRules(epoch) + [ClientFinishedRule(epoch)]);
      finishedInput := Some(plainText + merged);
      verifyData := inp.verifyData(plainText + merged);
    }
    pkts := pkts + [Packet(1, HandshakeContent(FINISHED, 0, verifyData))];
    pred := Predicted(signedInput, sessionInput, finishedInput);
  }
}
