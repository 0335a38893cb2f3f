/** End to end: the sender's cache entries, the network, the receiver's cache entries, and the bytes both
    ends hash (dtls/conn.go, writePackets and handleIncomingPacket). */
module BytePath {
  import opened Options
  import opened Bytes
  import opened HandshakeWire
  import opened FragmentBuffer
  import opened Sequences
  import opened Reassembly
  import opened FlightCache

  /** What writePackets pushes into the sender's own cache for message `i`. */
  function SentItem(msgs: seq<Sent>, i: nat, isClient: bool): Item
    requires i < |msgs| < 0x1_0000
  {
    Item(msgs[i].typ, isClient, msgs[i].epoch, i, MarshalHandshake(msgs[i].typ, i, msgs[i].body))
  }

  /** What handleIncomingPacket pushes into the receiver's cache for a popped message; one whose header
      does not parse is skipped. */
  function ReceivedItem(p: Popped, senderIsClient: bool): Option<Item> {
    match p
    case Nothing => None
    case Message(raw, epoch) =>
      match UnmarshalHeader(raw)
      case None => None
      case Some(h) => Some(Item(h.typ, senderIsClient, epoch, h.messageSequence, raw))
  }

  lemma ReceivedIsSent(msgs: seq<Sent>, i: nat, isClient: bool)
    requires ValidMessages(msgs) && i < |msgs|
    ensures ReceivedItem(Expected(msgs, i), isClient) == Some(SentItem(msgs, i, isClient))
  {
    HeaderRoundTrip(WholeHeader(msgs[i].typ, i, msgs[i].body), msgs[i].body);
  }

  function SentItems(msgs: seq<Sent>, from: nat, to: nat, isClient: bool): seq<Item>
    requires from <= to <= |msgs| < 0x1_0000
  {
    seq(to - from, k requires 0 <= k < to - from => SentItem(msgs, from + k, isClient))
  }

  /** The cache entries of popped messages, in order. */
  function ReceivedItems(out: seq<Popped>, senderIsClient: bool): seq<Item> {
    if out == [] then []
    else
      (match ReceivedItem(out[0], senderIsClient)
       case None => []
       case Some(x) => [x])
      + ReceivedItems(out[1..], senderIsClient)
  }

  datatype Drained = Drained(s: State, out: seq<Popped>, panics: bool)

  /** Popping until nothing comes out, or until pop panics. */
  function Drain(s: State): Drained
    decreases |s.cache|
  {
    if !CanPop(s) then Drained(s, [], true)
    else
      var (s', p) := Pop(s);
      if p.Nothing? then Drained(s, [], false)
      else var d := Drain(s'); Drained(d.s, [p] + d.out, d.panics)
  }

  lemma DrainStep(s: State)
    requires CanPop(s) && Pop(s).1.Message?
    ensures var d := Drain(Pop(s).0); Drain(s) == Drained(d.s, [Pop(s).1] + d.out, d.panics)
    ensures |Pop(s).0.cache| < |s.cache|
  {
  }

  /** handleIncomingPacket's handshake branch, for any bytes: push the record, then move every message that is now
      complete into the cache. */
  method HandleRecord(buffer: Buffer, cache: Cache, raw: seq<byte>, senderIsClient: bool)
    returns (handled: bool, panics: bool)
    modifies buffer, cache
    ensures var (s, r) := Push(old(buffer.Value()), raw);
            && (handled <==> r.Pushed? && r.isHandshake)
            && (!handled ==> buffer.Value() == s && cache.items == old(cache.items) && !panics)
            && (handled ==> var d := Drain(s);
                            && buffer.Value() == d.s && panics == d.panics
                            && cache.items == old(cache.items) + ReceivedItems(d.out, senderIsClient))
  {
    var pushed := buffer.PushRecord(raw);
    handled, panics := pushed.Pushed? && pushed.isHandshake, false;
    if handled {
      panics := DrainInto(buffer, cache, senderIsClient);
    }
  }

  lemma ReceivedCons(items: seq<Item>, p: Popped, rest: seq<Popped>, senderIsClient: bool)
    ensures items + ReceivedItems([p] + rest, senderIsClient) ==
            items + ReceivedItems([p], senderIsClient) + ReceivedItems(rest, senderIsClient)
  {
    assert ([p] + rest)[1..] == rest && [p][1..] == [];
    Assoc(items, ReceivedItems([p], senderIsClient), ReceivedItems(rest, senderIsClient));
  }

  /** The body of the pop loop: a message whose header does not parse is skipped. */
  method CacheMessage(cache: Cache, out: Popped, senderIsClient: bool)
    requires out.Message?
    modifies cache
    ensures cache.items == old(cache.items) + ReceivedItems([out], senderIsClient)
  {
    assert [out][1..] == [];
    var header := UnmarshalHeader(out.raw);
    if header.Some? {
      cache.Push(out.raw, out.epoch, header.value.messageSequence, header.value.typ, senderIsClient);
    }
  }

  /** One pop, seen from the end of the loop. */
  method PopNext(buffer: Buffer) returns (panics: bool, out: Popped)
    modifies buffer
    ensures var goal, d := old(Drain(buffer.Value())), Drain(buffer.Value());
            if out.Message? then goal == Drained(d.s, [out] + d.out, d.panics) && |buffer.cache| < old(|buffer.cache|)
            else goal == Drained(buffer.Value(), [], panics)
  {
    if CanPop(buffer.Value()) && Pop(buffer.Value()).1.Message? {
      DrainStep(buffer.Value());
    }
    panics, out := buffer.PopMessage();
  }

  /** The pop loop. */
  method DrainInto(buffer: Buffer, cache: Cache, senderIsClient: bool) returns (panics: bool)
    modifies buffer, cache
    ensures var d := Drain(old(buffer.Value()));
            && buffer.Value() == d.s && panics == d.panics
            && cache.items == old(cache.items) + ReceivedItems(d.out, senderIsClient)
  {
    ghost var goal := Drain(buffer.Value());
    ghost var items := cache.items + ReceivedItems(goal.out, senderIsClient);
    var out;
    panics, out := PopNext(buffer);
    while out.Message?
      invariant out.Message? ==>
        var d := Drain(buffer.Value());
        && d.s == goal.s && d.panics == goal.panics
        && cache.items + ReceivedItems([out] + d.out, senderIsClient) == items
      invariant out.Nothing? ==> buffer.Value() == goal.s && panics == goal.panics && cache.items == items
      decreases if out.Message? then 1 + |buffer.cache| else 0
    {
      ghost var rest := Drain(buffer.Value()).out;
      ReceivedCons(cache.items, out, rest, senderIsClient);
      CacheMessage(cache, out, senderIsClient);
      panics, out := PopNext(buffer);
    }
  }

  lemma OneReceived(msgs: seq<Sent>, i: nat, rest: seq<Popped>, isClient: bool)
    requires ValidMessages(msgs) && i < |msgs|
    ensures ReceivedItems([Expected(msgs, i)] + rest, isClient) ==
            [SentItem(msgs, i, isClient)] + ReceivedItems(rest, isClient)
  {
    ReceivedIsSent(msgs, i, isClient);
    assert ([Expected(msgs, i)] + rest)[1..] == rest;
  }

  lemma SentItemsCons(msgs: seq<Sent>, from: nat, to: nat, isClient: bool)
    requires from < to <= |msgs| < 0x1_0000
    ensures SentItems(msgs, from, to, isClient) ==
            [SentItem(msgs, from, isClient)] + SentItems(msgs, from + 1, to, isClient)
  {
  }

  /** Drained from message `from` on: no panic, the complete messages as their sender cached them, and the next one
      incomplete. */
  ghost predicate DrainedFrom(msgs: seq<Sent>, from: nat, d: Drained, isClient: bool)
    requires ValidMessages(msgs)
  {
    && !d.panics && Sound(msgs, d.s) && from <= d.s.current && Complete(d.s).None?
    && ReceivedItems(d.out, isClient) == SentItems(msgs, from, d.s.current, isClient)
  }

  lemma DrainedOneMore(msgs: seq<Sent>, from: nat, d: Drained, isClient: bool)
    requires ValidMessages(msgs) && from < |msgs| && DrainedFrom(msgs, from + 1, d, isClient)
    ensures DrainedFrom(msgs, from, Drained(d.s, [Expected(msgs, from)] + d.out, false), isClient)
  {
    OneReceived(msgs, from, d.out, isClient);
    SentItemsCons(msgs, from, d.s.current, isClient);
  }

  ghost predicate DrainsSoundly(msgs: seq<Sent>, s: State, isClient: bool)
    requires ValidMessages(msgs)
  {
    DrainedFrom(msgs, s.current, Drain(s), isClient)
  }

  lemma DrainStops(msgs: seq<Sent>, s: State, isClient: bool)
    requires ValidMessages(msgs) && Sound(msgs, s) && CanPop(s) && Pop(s).1.Nothing?
    ensures DrainsSoundly(msgs, s, isClient)
  {
    assert Drain(s) == Drained(s, [], false);
    assert SentItems(msgs, s.current, s.current, isClient) == [];
  }

  lemma DrainGoesOn(msgs: seq<Sent>, s: State, isClient: bool)
    requires ValidMessages(msgs) && s.current < |msgs| && CanPop(s) && Pop(s).1 == Expected(msgs, s.current)
    requires Pop(s).0.current == s.current + 1 && DrainsSoundly(msgs, Pop(s).0, isClient)
    ensures DrainsSoundly(msgs, s, isClient)
  {
    DrainedOneMore(msgs, s.current, Drain(Pop(s).0), isClient);
    DrainStep(s);
  }

  lemma PopShrinks(s: State)
    requires CanPop(s) && Pop(s).1.Message?
    ensures |Pop(s).0.cache| < |s.cache|
  {
    DrainStep(s);
  }

  lemma {:induction false} DrainSound(msgs: seq<Sent>, s: State, isClient: bool)
    requires ValidMessages(msgs) && Sound(msgs, s)
    ensures DrainsSoundly(msgs, s, isClient)
    decreases |s.cache|
  {
    PopSound(msgs, s);
    if Pop(s).1.Nothing? {
      DrainStops(msgs, s, isClient);
    } else {
      PopShrinks(s);
      DrainSound(msgs, Pop(s).0, isClient);
      DrainGoesOn(msgs, s, isClient);
    }
  }

  /** A record of the peer's fragments moves exactly the newly complete messages into the cache, in the form the peer
      cached them; one that a full buffer refuses changes nothing. */
  lemma SendersRecordIsCached(msgs: seq<Sent>, s: State, e: NetEvent, isClient: bool)
    requires ValidMessages(msgs) && ValidEvent(msgs, e) && e.Record? && Sound(msgs, s)
    ensures var (s', r) := Push(s, RecordBytes(msgs, e));
            (r.PushFailed? ==> s' == s) && DrainedFrom(msgs, s.current, Drain(s'), isClient)
  {
    PushRecord(msgs, s, e);
    StoreSlicesSound(msgs, s, e.epoch, e.slices);
    DrainSound(msgs, Push(s, RecordBytes(msgs, e)).0, isClient);
  }

  /** `x` is the cache entry of one of the first `n` messages of one side. */
  predicate IsSent(x: Item, msgs: seq<Sent>, n: nat, isClient: bool)
    requires n <= |msgs| < 0x1_0000
  {
    x.messageSequence < n && x == SentItem(msgs, x.messageSequence, isClient)
  }

  /** An endpoint's cache, as far as membership goes: its own `mine` (pushed once per transmission, so any
      number of times) and the first `n` of the peer's messages. */
  ghost predicate Holds(items: seq<Item>, mine: seq<Sent>, isClient: bool, peers: seq<Sent>, n: nat)
    requires |mine| < 0x1_0000 && n <= |peers| < 0x1_0000
  {
    forall x :: x in items <==> IsSent(x, mine, |mine|, isClient) || IsSent(x, peers, n, !isClient)
  }

  lemma HoldsFunctional(items: seq<Item>, mine: seq<Sent>, isClient: bool, peers: seq<Sent>, n: nat)
    requires |mine| < 0x1_0000 && n <= |peers| < 0x1_0000 && Holds(items, mine, isClient, peers, n)
    ensures Functional(items)
  {
  }

  /** No message still in flight is covered by the rule. */
  ghost predicate Settled(msgs: seq<Sent>, n: nat, isClient: bool, r: Rule)
    requires n <= |msgs| < 0x1_0000
  {
    forall x :: IsSent(x, msgs, |msgs|, isClient) && Matches(x, r) ==> x.messageSequence < n
  }

  /** Both ends hash the same bytes: whatever each end retransmitted and in whatever order messages
      arrived, once the messages a set of rules covers have been delivered both ways, PullAndMerge (and
      with it SessionHash) gives the same bytes on the client and on the server. */
  lemma BothEndsMergeTheSame(clientItems: seq<Item>, serverItems: seq<Item>, fromClient: seq<Sent>,
                             fromServer: seq<Sent>, atServer: nat, atClient: nat, rules: seq<Rule>)
    requires ValidMessages(fromClient) && ValidMessages(fromServer)
    requires atServer <= |fromClient| && atClient <= |fromServer|
    requires Holds(clientItems, fromClient, true, fromServer, atClient)
    requires Holds(serverItems, fromServer, false, fromClient, atServer)
    requires forall k :: 0 <= k < |rules| ==>
               Settled(fromClient, atServer, true, rules[k]) && Settled(fromServer, atClient, false, rules[k])
    ensures Merge(clientItems, rules) == Merge(serverItems, rules)
  {
    HoldsFunctional(clientItems, fromClient, true, fromServer, atClient);
    forall k | 0 <= k < |rules| ensures SameFor(clientItems, serverItems, rules[k]) {
      assert Settled(fromClient, atServer, true, rules[k]) && Settled(fromServer, atClient, false, rules[k]);
    }
    MergeSame(clientItems, serverItems, rules);
  }
}
