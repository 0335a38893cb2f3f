/** The hash inputs predicted before flight 5 is sent are the ones the caches yield afterwards. */
module Flight5Agreement {
  import opened Options
  import opened Bytes
  import opened HandshakeWire
  import opened FlightCache
  import opened Flight5
  import opened Sequences

  function NewItem(m: Unsent, seqNo: int, epoch: u16): Item {
    Item(m.typ, true, epoch, Wrap16(seqNo), Raw(m, seqNo))
  }

  /** The cache entries of consecutively numbered client messages. */
  function NewItems(msgs: seq<Unsent>, first: int, epoch: u16): seq<Item> {
    seq(|msgs|, k requires 0 <= k < |msgs| => NewItem(msgs[k], first + k, epoch))
  }

  /** Flight 5 as Generate leaves it. */
  function FlightPackets(all: seq<Unsent>, first: int, finished: seq<byte>): seq<Packet> {
    Plain(all, first) + [Packet(0, ChangeCipherSpec), Packet(1, HandshakeContent(FINISHED, 0, finished))]
  }

  /** The entries flight 5 leaves in the client's cache. */
  function FlightItems(all: seq<Unsent>, first: int, epoch: u16, finished: seq<byte>): seq<Item> {
    NewItems(all, first, epoch) +
    [NewItem(Unsent(FINISHED, finished), first + |all|, Wrap16(epoch + 1))]
  }

  lemma {:induction false} CountPlain(all: seq<Unsent>, first: int, finished: seq<byte>, k: nat)
    requires k <= |all|
    ensures HandshakesBefore(FlightPackets(all, first, finished), k) == k
  {
    if k > 0 { CountPlain(all, first, finished, k - 1); }
  }

  lemma {:induction false} CacheItemsPlain(all: seq<Unsent>, first: int, epoch: u16, out: seq<Packet>, k: nat)
    requires k <= |all| <= |out|
    requires forall j :: 0 <= j < |all| ==> out[j] == Packet(epoch, Numbered(all[j], first + j))
    ensures CacheItems(out[..k], true) == NewItems(all[..k], first, epoch)
  {
    if k > 0 {
      CacheItemsPlain(all, first, epoch, out, k - 1);
      assert out[..k][..k - 1] == out[..k - 1];
      assert CacheItem(out[k - 1], true) == NewItem(all[k - 1], first + (k - 1), epoch);
      assert NewItems(all[..k], first, epoch) ==
             NewItems(all[..k - 1], first, epoch) + [NewItem(all[k - 1], first + (k - 1), epoch)];
    }
  }

  /** The numbers prepare stamps are the numbers that were predicted. */
  lemma StampedAsPredicted(all: seq<Unsent>, first: int, epoch: u16, finished: seq<byte>, k: nat)
    requires k < |all|
    ensures StampedAt(FlightPackets(all, first, finished), k, first, epoch) ==
            Packet(epoch, Numbered(all[k], first + k))
    ensures StampedAt(FlightPackets(all, first, finished), k, first, epoch).content ==
            FlightPackets(all, first, finished)[k].content
  {
    CountPlain(all, first, finished, k);
  }

  lemma FinishedStamped(all: seq<Unsent>, first: int, epoch: u16, finished: seq<byte>)
    ensures var pkts := FlightPackets(all, first, finished);
            StampedAt(pkts, |all|, first, epoch) == Packet(epoch, ChangeCipherSpec) &&
            StampedAt(pkts, |all| + 1, first, epoch) ==
            Packet(Wrap16(epoch + 1), Numbered(Unsent(FINISHED, finished), first + |all|))
  {
    CountPlain(all, first, finished, |all|);
    assert HandshakesBefore(FlightPackets(all, first, finished), |all| + 1) == |all|;
  }

  lemma CacheItemsSnoc(pkts: seq<Packet>, p: Packet)
    ensures CacheItems(pkts + [p], true) ==
            CacheItems(pkts, true) + if p.content.HandshakeContent? then [CacheItem(p, true)] else []
  {
    assert (pkts + [p])[..|pkts|] == pkts;
  }

  lemma PushedPlain(all: seq<Unsent>, first: int, epoch: u16, finished: seq<byte>, out: seq<Packet>)
    requires |out| == |all| + 2
    requires forall k :: 0 <= k < |out| ==> out[k] == StampedAt(FlightPackets(all, first, finished), k, first, epoch)
    ensures CacheItems(out[..|all|], true) == NewItems(all, first, epoch)
  {
    forall j | 0 <= j < |all| ensures out[j] == Packet(epoch, Numbered(all[j], first + j)) {
      StampedAsPredicted(all, first, epoch, finished, j);
    }
    CacheItemsPlain(all, first, epoch, out, |all|);
    assert all[..|all|] == all;
  }

  lemma PushedLastTwo(pkts: seq<Packet>, ccs: Packet, fin: Packet)
    requires ccs.content.ChangeCipherSpec? && fin.content.HandshakeContent?
    ensures CacheItems(pkts + [ccs] + [fin], true) == CacheItems(pkts, true) + [CacheItem(fin, true)]
  {
    CacheItemsSnoc(pkts, ccs);
    CacheItemsSnoc(pkts + [ccs], fin);
  }

  lemma PushedItems(all: seq<Unsent>, first: int, epoch: u16, finished: seq<byte>, out: seq<Packet>)
    requires |out| == |all| + 2
    requires forall k :: 0 <= k < |out| ==> out[k] == StampedAt(FlightPackets(all, first, finished), k, first, epoch)
    ensures CacheItems(out, true) == FlightItems(all, first, epoch, finished)
  {
    var n := |all|;
    PushedPlain(all, first, epoch, finished, out);
    FinishedStamped(all, first, epoch, finished);
    PushedLastTwo(out[..n], out[n], out[n + 1]);
    LastTwo(out);
  }

  lemma {:induction false} LastUnmatched(items: seq<Item>, added: seq<Item>, r: Rule)
    requires forall k :: 0 <= k < |added| ==> !Matches(added[k], r)
    ensures Last(items + added, r) == Last(items, r)
  {
    if added == [] {
      assert items + added == items;
    } else {
      var n := |added| - 1;
      LastUnmatched(items, added[..n], r);
      assert (items + added)[..|items + added| - 1] == items + added[..n];
    }
  }

  lemma LastSnoc(items: seq<Item>, x: Item, r: Rule)
    requires Matches(x, r)
    ensures Last(items + [x], r) ==
            if Last(items, r).None? || Last(items, r).value.messageSequence < x.messageSequence then Some(x)
            else Last(items, r)
  {
    assert (items + [x])[..|items|] == items;
  }

  /** When exactly one added entry matches: it is selected, or an older one with no lower number is. */
  lemma LastOneMatch(items: seq<Item>, before: seq<Item>, x: Item, after: seq<Item>, r: Rule)
    requires Matches(x, r)
    requires forall k :: 0 <= k < |before| ==> !Matches(before[k], r)
    requires forall k :: 0 <= k < |after| ==> !Matches(after[k], r)
    ensures var was, now := Last(items, r), Last(items + (before + [x] + after), r);
            if was.None? then now == Some(x) else now == Some(x) || now == was
  {
    LastUnmatched(items, before, r);
    LastSnoc(items + before, x, r);
    LastUnmatched(items + before + [x], after, r);
    Regroup(items, before, [x], after);
  }

  /** Rules none of the added entries match. */
  lemma MergeUnmatched(items: seq<Item>, added: seq<Item>, rules: seq<Rule>)
    requires forall j, k :: 0 <= j < |rules| && 0 <= k < |added| ==> !Matches(added[k], rules[j])
    ensures Merge(items + added, rules) == Merge(items, rules)
  {
    forall j | 0 <= j < |rules| ensures Selected(items + added, rules[j]) == Selected(items, rules[j]) {
      LastUnmatched(items, added, rules[j]);
    }
    assert Parts(items + added, rules) == Parts(items, rules);
  }

  function ServerRules(epoch: u16): seq<Rule> {
    SessionRules(epoch)[..6]
  }

  function CertRule(epoch: u16): Rule { Rule(CERTIFICATE, epoch, true, false) }
  function KeyRule(epoch: u16): Rule { Rule(CLIENT_KEY_EXCHANGE, epoch, true, false) }
  function VerifyRule(epoch: u16): Rule { Rule(CERTIFICATE_VERIFY, epoch, true, false) }

  lemma SessionSplit(items: seq<Item>, epoch: u16)
    ensures Merge(items, SessionRules(epoch)) ==
            Merge(items, ServerRules(epoch)) + Selected(items, CertRule(epoch)) + Selected(items, KeyRule(epoch))
  {
    var six := ServerRules(epoch);
    assert SessionRules(epoch) == six + [CertRule(epoch)] + [KeyRule(epoch)];
    MergeAppend(items, six + [CertRule(epoch)], [KeyRule(epoch)]);
    MergeAppend(items, six, [CertRule(epoch)]);
    MergeOne(items, CertRule(epoch));
    MergeOne(items, KeyRule(epoch));
  }

  /** The four parts of the flight in the cache: an optional Certificate, ClientKeyExchange, an optional
      CertificateVerify, Finished. */
  function CertItems(inp: Inputs, first: int, epoch: u16): seq<Item> {
    if inp.certificate.None? then [] else [NewItem(Unsent(CERTIFICATE, inp.certificate.value), first, epoch)]
  }

  function KeyItem(inp: Inputs, first: int, epoch: u16): Item {
    NewItem(Unsent(CLIENT_KEY_EXCHANGE, inp.keyExchange), first + |CertItems(inp, first, epoch)|, epoch)
  }

  function VerifyItems(inp: Inputs, signed: seq<byte>, first: int, epoch: u16): seq<Item> {
    if inp.certificate.None? || inp.sign.None? then []
    else [NewItem(Unsent(CERTIFICATE_VERIFY, inp.sign.value(signed)), first + 2, epoch)]
  }

  /** What a client that generated flight 5 with these inputs has added to its cache. */
  function Added(inp: Inputs, signed: seq<byte>, first: int, epoch: u16, finished: seq<byte>): seq<Item> {
    FlightItems(Leading(inp) + Verify(inp, signed), first, epoch, finished)
  }

  /** The Finished entry and whatever precedes it after ClientKeyExchange. */
  function Trailing(inp: Inputs, signed: seq<byte>, first: int, epoch: u16, finished: seq<byte>): seq<Item> {
    VerifyItems(inp, signed, first, epoch) +
    [NewItem(Unsent(FINISHED, finished), first + |Leading(inp) + Verify(inp, signed)|, Wrap16(epoch + 1))]
  }

  lemma AddedShape(inp: Inputs, signed: seq<byte>, first: int, epoch: u16, finished: seq<byte>)
    ensures Added(inp, signed, first, epoch, finished) ==
            CertItems(inp, first, epoch) + [KeyItem(inp, first, epoch)] + Trailing(inp, signed, first, epoch, finished)
  {
  }

  function PartData(part: seq<Item>): seq<byte>
    requires |part| <= 1
  {
    if part == [] then [] else part[0].data
  }

  lemma RawShape(inp: Inputs, first: int, epoch: u16)
    ensures RawFrom(Leading(inp), first) == PartData(CertItems(inp, first, epoch)) + KeyItem(inp, first, epoch).data
  {
    var key := Unsent(CLIENT_KEY_EXCHANGE, inp.keyExchange);
    if inp.certificate.Some? {
      var cert := Unsent(CERTIFICATE, inp.certificate.value);
      Snoc([cert], key, first);
      Snoc([], cert, first);
      assert [] + [cert] == [cert];
    } else {
      Snoc([], key, first);
    }
  }

  lemma RawVerifyShape(inp: Inputs, signed: seq<byte>, first: int, epoch: u16)
    ensures RawFrom(Leading(inp) + Verify(inp, signed), first) ==
            RawFrom(Leading(inp), first) + PartData(VerifyItems(inp, signed, first, epoch))
  {
    if inp.certificate.Some? && inp.sign.Some? {
      Snoc(Leading(inp), Verify(inp, signed)[0], first);
    } else {
      assert Leading(inp) + Verify(inp, signed) == Leading(inp);
    }
  }

  /** Where the certificate and the key exchange are found once the flight is in the cache. */
  lemma SelectedAfter(items: seq<Item>, inp: Inputs, signed: seq<byte>, first: int, epoch: u16, finished: seq<byte>)
    ensures var after := items + Added(inp, signed, first, epoch, finished);
            var cert, key := CertItems(inp, first, epoch), KeyItem(inp, first, epoch);
            && (cert == [] ==> Selected(after, CertRule(epoch)) == Selected(items, CertRule(epoch)))
            && (cert != [] && Last(items, CertRule(epoch)).None? ==> Selected(after, CertRule(epoch)) == cert[0].data)
            && (cert != [] ==> Selected(after, CertRule(epoch)) in {cert[0].data, Selected(items, CertRule(epoch))})
            && (Last(items, KeyRule(epoch)).None? ==> Selected(after, KeyRule(epoch)) == key.data)
            && Selected(after, KeyRule(epoch)) in {key.data, Selected(items, KeyRule(epoch))}
  {
    AddedShape(inp, signed, first, epoch, finished);
    var added := Added(inp, signed, first, epoch, finished);
    var cert, key := CertItems(inp, first, epoch), KeyItem(inp, first, epoch);
    var trailing := Trailing(inp, signed, first, epoch, finished);
    LastOneMatch(items, cert, key, trailing, KeyRule(epoch));
    if cert == [] {
      LastUnmatched(items, added, CertRule(epoch));
    } else {
      assert added == [] + [cert[0]] + ([key] + trailing);
      LastOneMatch(items, [], cert[0], [key] + trailing, CertRule(epoch));
    }
  }

  /** No earlier copy of a message this flight carries is cached: what a caller can check beforehand. */
  predicate FirstFlight5(items: seq<Item>, inp: Inputs, epoch: u16) {
    Last(items, KeyRule(epoch)).None? && (inp.certificate.Some? ==> Last(items, CertRule(epoch)).None?)
  }

  lemma ServerRulesUnaffected(items: seq<Item>, inp: Inputs, signed: seq<byte>, first: int, epoch: u16,
                              finished: seq<byte>)
    ensures Merge(items + Added(inp, signed, first, epoch, finished), ServerRules(epoch)) ==
            Merge(items, ServerRules(epoch))
  {
    AddedShape(inp, signed, first, epoch, finished);
    MergeUnmatched(items, Added(inp, signed, first, epoch, finished), ServerRules(epoch));
  }

  /** The session-hash input (and, by the same rules, the bytes CertificateVerify signs) predicted from the
      unsent messages equals what the cache yields once they have been stamped and pushed, exactly when no
      earlier ClientKeyExchange, nor Certificate if one is sent, is cached. */
  lemma SessionInputPredicted(items: seq<Item>, inp: Inputs, signed: seq<byte>, first: int, epoch: u16,
                              finished: seq<byte>)
    requires forall x :: x in items ==> |x.data| >= HEADER_LENGTH
    ensures Merge(items + Added(inp, signed, first, epoch, finished), SessionRules(epoch)) ==
            SessionInput(items, epoch, inp, first)
            <==> FirstFlight5(items, inp, epoch)
  {
    var after := items + Added(inp, signed, first, epoch, finished);
    SessionSplit(items, epoch);
    SessionSplit(after, epoch);
    ServerRulesUnaffected(items, inp, signed, first, epoch, finished);
    SelectedAfter(items, inp, signed, first, epoch, finished);
    RawShape(inp, first, epoch);
    LastIsHighest(items, KeyRule(epoch));
    LastIsHighest(items, CertRule(epoch));
    Accounting(Merge(items, ServerRules(epoch)), Selected(items, CertRule(epoch)), Selected(items, KeyRule(epoch)),
               PartData(CertItems(inp, first, epoch)), KeyItem(inp, first, epoch).data,
               Selected(after, CertRule(epoch)), Selected(after, KeyRule(epoch)));
  }

  /** Old certificate and key exchange `c0`, `k0`, new ones `c`, `k`, and the ones selected in the end. */
  lemma Accounting(six: seq<byte>, c0: seq<byte>, k0: seq<byte>, c: seq<byte>, k: seq<byte>, c1: seq<byte>,
                   k1: seq<byte>)
    requires c == [] ==> c1 == c0
    requires c != [] ==> c1 in {c, c0} && (c0 == [] ==> c1 == c)
    requires k != [] && k1 in {k, k0} && (k0 == [] ==> k1 == k)
    ensures six + c1 + k1 == six + c0 + k0 + (c + k) <==> k0 == [] && (c != [] ==> c0 == [])
  {
    if k0 == [] && (c != [] ==> c0 == []) {
      assert six + c1 + k1 == six + c0 + k0 + (c + k);
    } else {
      assert |six + c1 + k1| < |six + c0 + k0 + (c + k)|;
    }
  }

  lemma SelectedVerifyAfter(items: seq<Item>, inp: Inputs, signed: seq<byte>, first: int, epoch: u16,
                            finished: seq<byte>)
    ensures var after := items + Added(inp, signed, first, epoch, finished);
            var verify := VerifyItems(inp, signed, first, epoch);
            && (verify == [] ==> Selected(after, VerifyRule(epoch)) == Selected(items, VerifyRule(epoch)))
            && (verify != [] && Last(items, VerifyRule(epoch)).None? ==>
                  Selected(after, VerifyRule(epoch)) == verify[0].data)
            && (verify != [] ==>
                  Selected(after, VerifyRule(epoch)) in {verify[0].data, Selected(items, VerifyRule(epoch))})
  {
    AddedShape(inp, signed, first, epoch, finished);
    var added := Added(inp, signed, first, epoch, finished);
    var lead := CertItems(inp, first, epoch) + [KeyItem(inp, first, epoch)];
    var verify := VerifyItems(inp, signed, first, epoch);
    var rest := Trailing(inp, signed, first, epoch, finished)[|verify|..];
    if verify == [] {
      LastUnmatched(items, added, VerifyRule(epoch));
    } else {
      assert added == lead + [verify[0]] + rest;
      LastOneMatch(items, lead, verify[0], rest, VerifyRule(epoch));
    }
  }

  /** A cached entry holds a whole handshake message: at least a header, beginning with its type. */
  ghost predicate WholeMessages(items: seq<Item>) {
    forall x :: x in items ==> |x.data| >= HEADER_LENGTH && x.data[0] == x.typ
  }

  lemma SelectedNonempty(items: seq<Item>, r: Rule)
    requires WholeMessages(items)
    ensures Selected(items, r) == [] <==> Last(items, r).None?
    ensures Selected(items, r) != [] ==> Selected(items, r)[0] == r.typ
  {
    LastIsHighest(items, r);
  }

  lemma FinishedSplit(items: seq<Item>, epoch: u16)
    ensures Merge(items, FinishedRules(epoch)) ==
            Merge(items, SessionRules(epoch)) + Selected(items, VerifyRule(epoch))
    ensures Merge(items, FinishedRules(epoch) + [ClientFinishedRule(epoch)]) ==
            Merge(items, SessionRules(epoch)) + Selected(items, VerifyRule(epoch))
            + Selected(items, ClientFinishedRule(epoch))
  {
    MergeAppend(items, FinishedRules(epoch), [ClientFinishedRule(epoch)]);
    MergeAppend(items, SessionRules(epoch), [VerifyRule(epoch)]);
    MergeOne(items, VerifyRule(epoch));
    MergeOne(items, ClientFinishedRule(epoch));
  }

  predicate FirstFinished(items: seq<Item>, inp: Inputs, epoch: u16) {
    FirstFlight5(items, inp, epoch) && Last(items, VerifyRule(epoch)).None? &&
      Last(items, ClientFinishedRule(epoch)).None?
  }

  /** The Finished input predicted from the unsent messages equals the bytes of the whole handshake up to
      Finished as the cache yields them afterwards, exactly when the cache holds no earlier copy of any
      client message of this flight. */
  lemma FinishedInputPredicted(items: seq<Item>, inp: Inputs, signed: seq<byte>, first: int, epoch: u16,
                               finished: seq<byte>)
    requires WholeMessages(items)
    ensures Merge(items + Added(inp, signed, first, epoch, finished), FinishedRules(epoch)) ==
            FinishedInput(items, epoch, inp, signed, first)
            <==> FirstFinished(items, inp, epoch)
  {
    var after := items + Added(inp, signed, first, epoch, finished);
    FinishedSplit(items, epoch);
    FinishedSplit(after, epoch);
    SessionSplit(items, epoch);
    SessionSplit(after, epoch);
    ServerRulesUnaffected(items, inp, signed, first, epoch, finished);
    SelectedAfter(items, inp, signed, first, epoch, finished);
    SelectedVerifyAfter(items, inp, signed, first, epoch, finished);
    RawShape(inp, first, epoch);
    RawVerifyShape(inp, signed, first, epoch);
    SelectedNonempty(items, KeyRule(epoch));
    SelectedNonempty(items, CertRule(epoch));
    SelectedNonempty(items, VerifyRule(epoch));
    SelectedNonempty(items, ClientFinishedRule(epoch));
    FinishedAccounting(
      Merge(items, ServerRules(epoch)),
      Before(Selected(items, CertRule(epoch)), Selected(items, KeyRule(epoch)), Selected(items, VerifyRule(epoch)),
             Selected(items, ClientFinishedRule(epoch))),
      Carried(PartData(CertItems(inp, first, epoch)), KeyItem(inp, first, epoch).data,
             PartData(VerifyItems(inp, signed, first, epoch))),
      Carried(Selected(after, CertRule(epoch)), Selected(after, KeyRule(epoch)), Selected(after, VerifyRule(epoch))));
  }

  datatype Before = Before(cert: seq<byte>, key: seq<byte>, verify: seq<byte>, finished: seq<byte>)
  datatype Carried = Carried(cert: seq<byte>, key: seq<byte>, verify: seq<byte>)

  predicate Starts(s: seq<byte>, typ: byte) {
    s == [] || s[0] == typ
  }

  /** `now` is the new part if there was no old one, the old if there is no new one, else either. */
  predicate Replaced(old_: seq<byte>, new_: seq<byte>, now: seq<byte>) {
    (new_ == [] ==> now == old_) && (new_ != [] ==> now == new_ || now == old_) && (old_ == [] ==> now == new_)
  }

  lemma FinishedAccounting(six: seq<byte>, b: Before, n: Carried, now: Carried)
    requires Replaced(b.cert, n.cert, now.cert) && Replaced(b.key, n.key, now.key) &&
             Replaced(b.verify, n.verify, now.verify)
    requires n.key != [] && Starts(n.key, CLIENT_KEY_EXCHANGE) && Starts(n.cert, CERTIFICATE) &&
             Starts(b.verify, CERTIFICATE_VERIFY)
    ensures six + now.cert + now.key + now.verify ==
            six + b.cert + b.key + b.verify + b.finished + (n.cert + n.key + n.verify)
            <==> b.key == [] && (n.cert != [] ==> b.cert == []) && b.verify == [] && b.finished == []
  {
    var l := six + now.cert + now.key + now.verify;
    var r := six + b.cert + b.key + b.verify + b.finished + (n.cert + n.key + n.verify);
    if b.key == [] && (n.cert != [] ==> b.cert == []) && b.verify == [] && b.finished == [] {
      assert l == r;
    } else if b.finished != [] || b.key != [] || (n.cert != [] && b.cert != []) || n.verify != [] {
      assert |l| < |r|;
    } else {
      var at := |six| + |b.cert|;
      assert r[at] == b.verify[0];
      assert l[at] == if n.cert != [] then n.cert[0] else n.key[0];
    }
  }

  /** A server whose cache agrees with the client's, as far as the rules can see, hashes what the client predicted:
      the session hash and the bytes CertificateVerify covers, and the Finished input. */
  lemma ServerHashesPrediction(items: seq<Item>, server: seq<Item>, inp: Inputs, signed: seq<byte>, first: int,
                               epoch: u16, finished: seq<byte>)
    requires WholeMessages(items) && Functional(server)
    requires forall k :: 0 <= k < |FinishedRules(epoch)| ==>
               SameFor(server, items + Added(inp, signed, first, epoch, finished), FinishedRules(epoch)[k])
    ensures Merge(server, SessionRules(epoch)) == SessionInput(items, epoch, inp, first)
            <==> FirstFlight5(items, inp, epoch)
    ensures Merge(server, FinishedRules(epoch)) ==
            FinishedInput(items, epoch, inp, signed, first)
            <==> FirstFinished(items, inp, epoch)
  {
    var client := items + Added(inp, signed, first, epoch, finished);
    forall k | 0 <= k < |SessionRules(epoch)| ensures SameFor(server, client, SessionRules(epoch)[k]) {
      assert SessionRules(epoch)[k] == FinishedRules(epoch)[k];
    }
    MergeSame(server, client, SessionRules(epoch));
    MergeSame(server, client, FinishedRules(epoch));
    SessionInputPredicted(items, inp, signed, first, epoch, finished);
    FinishedInputPredicted(items, inp, signed, first, epoch, finished);
  }

  /** Flight 5 from generation to the cache: Generate, prepare's stamping, writePackets' pushes. */
  method SendFlight5(cache: Cache, sendSequence: int, epoch: u16, inp: Inputs, initialized: bool,
                     localVerifyData: seq<byte>)
    returns (pred: Predicted, verifyData: seq<byte>, next: int)
    modifies cache
    ensures pred.sessionInput == (if initialized then None else Some(pred.signedInput))
    ensures pred.finishedInput.Some? <==> localVerifyData == []
    ensures verifyData == if localVerifyData != [] then localVerifyData else inp.verifyData(pred.finishedInput.value)
    ensures next == sendSequence + |Leading(inp) + Verify(inp, pred.signedInput)| + 1
    ensures cache.items == old(cache.items) + Added(inp, pred.signedInput, sendSequence, epoch, verifyData)
    ensures WholeMessages(old(cache.items)) ==>
              (pred.signedInput == Merge(cache.items, SessionRules(epoch)) <==>
               FirstFlight5(old(cache.items), inp, epoch))
    ensures WholeMessages(old(cache.items)) && pred.finishedInput.Some? ==>
              (pred.finishedInput.value == Merge(cache.items, FinishedRules(epoch)) <==>
               FirstFinished(old(cache.items), inp, epoch))
  {
    var pkts;
    pkts, pred, verifyData := Generate(cache, sendSequence, epoch, inp, initialized, localVerifyData);
    var all := Leading(inp) + Verify(inp, pred.signedInput);
    assert pkts == FlightPackets(all, sendSequence, verifyData);
    var out;
    out, next := Prepare(pkts, sendSequence, epoch);
    CountPlain(all, sendSequence, verifyData, |all|);
    assert HandshakesBefore(pkts, |all| + 2) == |all| + 1;
    PushedItems(all, sendSequence, epoch, verifyData, out);
    ghost var items := cache.items;
    WritePackets(cache, out, true);
    if WholeMessages(items) {
      SessionInputPredicted(items, inp, pred.signedInput, sendSequence, epoch, verifyData);
      FinishedInputPredicted(items, inp, pred.signedInput, sendSequence, epoch, verifyData);
    }
  }
}
