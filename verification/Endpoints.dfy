/** Two endpoints and the network between them, over whole runs: each sends its own messages as often as it likes
    (dtls/conn.go, writePackets), receives fragments of the peer's in any order, and caches both. */
module Endpoints {
  import opened Options
  import opened FragmentBuffer
  import opened FragmentAccounting
  import opened Reassembly
  import opened FlightCache
  import opened BytePath

  /** One transmission of an own message, or one step of the receive path. */
  datatype EndEvent = Transmit(i: nat) | Net(e: NetEvent)

  /** The cache and the receiver. */
  datatype Endpoint = Endpoint(items: seq<Item>, r: Run)

  predicate ValidStep(mine: seq<Sent>, peers: seq<Sent>, e: EndEvent) {
    match e
    case Transmit(i) => i < |mine|
    case Net(n) => ValidEvent(peers, n)
  }

  predicate ValidRun(mine: seq<Sent>, peers: seq<Sent>, events: seq<EndEvent>) {
    ValidMessages(mine) && ValidMessages(peers) && forall k :: 0 <= k < |events| ==> ValidStep(mine, peers, events[k])
  }

  /** What a step of the receive path adds to the cache: the message it popped, if its header parses. */
  function Cached(before: Run, after: Run, senderIsClient: bool): seq<Item> {
    if before.Run? && after.Run? && |after.delivered| > |before.delivered| then
      match ReceivedItem(after.delivered[|after.delivered| - 1], senderIsClient)
      case None => []
      case Some(x) => [x]
    else []
  }

  function EndStep(mine: seq<Sent>, isClient: bool, peers: seq<Sent>, p: Endpoint, e: EndEvent): Endpoint
    requires ValidMessages(mine) && ValidMessages(peers) && ValidStep(mine, peers, e)
  {
    match e
    case Transmit(i) => p.(items := p.items + [SentItem(mine, i, isClient)])
    case Net(n) => var r := Step(p.r, Wire(peers, n)); Endpoint(p.items + Cached(p.r, r, !isClient), r)
  }

  function EndRun(mine: seq<Sent>, isClient: bool, peers: seq<Sent>, events: seq<EndEvent>): Endpoint
    requires ValidRun(mine, peers, events)
  {
    if events == [] then Endpoint([], Run(Empty, []))
    else EndStep(mine, isClient, peers, EndRun(mine, isClient, peers, events[..|events| - 1]), events[|events| - 1])
  }

  predicate IsOwn(x: Item, mine: seq<Sent>, isClient: bool, events: seq<EndEvent>)
    requires |mine| < 0x1_0000
  {
    x.messageSequence < |mine| && Transmit(x.messageSequence) in events &&
      x == SentItem(mine, x.messageSequence, isClient)
  }

  /** The cache holds exactly what was transmitted and what was delivered, in the form the sender gave it. */
  ghost predicate CachesExactly(p: Endpoint, mine: seq<Sent>, isClient: bool, peers: seq<Sent>, events: seq<EndEvent>)
    requires ValidMessages(mine) && ValidMessages(peers)
  {
    && SoundRun(peers, p.r)
    && forall x :: x in p.items <==>
         IsOwn(x, mine, isClient, events) || IsSent(x, peers, |p.r.delivered|, !isClient)
  }

  lemma TransmitKeeps(p: Endpoint, mine: seq<Sent>, isClient: bool, peers: seq<Sent>, events: seq<EndEvent>, i: nat)
    requires ValidMessages(mine) && ValidMessages(peers) && i < |mine| &&
             CachesExactly(p, mine, isClient, peers, events)
    ensures CachesExactly(p.(items := p.items + [SentItem(mine, i, isClient)]), mine, isClient, peers,
                          events + [Transmit(i)])
  {
    var events' := events + [Transmit(i)];
    forall x ensures IsOwn(x, mine, isClient, events') <==>
      IsOwn(x, mine, isClient, events) || x == SentItem(mine, i, isClient) {
    }
  }

  /** A step of the receive path delivers nothing or exactly the next message of the peer. */
  lemma ReceiveAdds(peers: seq<Sent>, r: Run, e: NetEvent, senderIsClient: bool)
    requires ValidMessages(peers) && ValidEvent(peers, e) && SoundRun(peers, r)
    ensures var r' := Step(r, Wire(peers, e));
            var n := |r.delivered|;
            && SoundRun(peers, r')
            && ((|r'.delivered| == n && Cached(r, r', senderIsClient) == []) ||
                (|r'.delivered| == n + 1 <= |peers| &&
                  Cached(r, r', senderIsClient) == [SentItem(peers, n, senderIsClient)]))
  {
    StepSound(peers, r, e);
    var r' := Step(r, Wire(peers, e));
    if |r'.delivered| > |r.delivered| {
      ReceivedIsSent(peers, |r.delivered|, senderIsClient);
    }
  }

  lemma OneMoreSent(msgs: seq<Sent>, n: nat, isClient: bool)
    requires n < |msgs| < 0x1_0000
    ensures forall x :: IsSent(x, msgs, n + 1, isClient) <==>
            IsSent(x, msgs, n, isClient) || x == SentItem(msgs, n, isClient)
  {
  }

  lemma NetKeeps(p: Endpoint, mine: seq<Sent>, isClient: bool, peers: seq<Sent>, events: seq<EndEvent>, e: NetEvent)
    requires ValidMessages(mine) && ValidMessages(peers) && ValidEvent(peers, e) &&
             CachesExactly(p, mine, isClient, peers, events)
    ensures CachesExactly(EndStep(mine, isClient, peers, p, Net(e)), mine, isClient, peers, events + [Net(e)])
  {
    var r := Step(p.r, Wire(peers, e));
    ReceiveAdds(peers, p.r, e, !isClient);
    forall x ensures IsOwn(x, mine, isClient, events + [Net(e)]) <==> IsOwn(x, mine, isClient, events) {
    }
    if |r.delivered| == |p.r.delivered| + 1 {
      OneMoreSent(peers, |p.r.delivered|, !isClient);
    }
  }

  /** Over every run of one endpoint and every behaviour of the network. */
  lemma {:induction false} EveryRunCachesExactly(mine: seq<Sent>, isClient: bool, peers: seq<Sent>,
                                                 events: seq<EndEvent>)
    requires ValidRun(mine, peers, events)
    ensures CachesExactly(EndRun(mine, isClient, peers, events), mine, isClient, peers, events)
  {
    if events != [] {
      var n := |events| - 1;
      EveryRunCachesExactly(mine, isClient, peers, events[..n]);
      assert events == events[..n] + [events[n]];
      var p := EndRun(mine, isClient, peers, events[..n]);
      match events[n]
      case Transmit(i) => TransmitKeeps(p, mine, isClient, peers, events[..n], i);
      case Net(e) => NetKeeps(p, mine, isClient, peers, events[..n], e);
    }
  }

  predicate AllTransmitted(mine: seq<Sent>, events: seq<EndEvent>) {
    forall i :: 0 <= i < |mine| ==> Transmit(i) in events
  }

  lemma TransmittedHolds(mine: seq<Sent>, isClient: bool, peers: seq<Sent>, events: seq<EndEvent>)
    requires ValidRun(mine, peers, events) && AllTransmitted(mine, events)
    ensures var p := EndRun(mine, isClient, peers, events);
            SoundRun(peers, p.r) && |p.r.delivered| <= |peers| && Holds(p.items, mine, isClient, peers, |p.r.delivered|)
  {
    EveryRunCachesExactly(mine, isClient, peers, events);
    var p := EndRun(mine, isClient, peers, events);
    forall x ensures IsOwn(x, mine, isClient, events) <==> IsSent(x, mine, |mine|, isClient) {
    }
  }

  /** For every run of both endpoints, every fragmentation, loss, reordering and retransmission: once the messages
      that some rules cover have been delivered both ways, PullAndMerge over those rules gives both ends the same
      bytes, and so they compute the same hashes. */
  lemma BothEndsHashTheSame(fromClient: seq<Sent>, fromServer: seq<Sent>,
                            clientEvents: seq<EndEvent>, serverEvents: seq<EndEvent>, rules: seq<Rule>)
    requires ValidRun(fromClient, fromServer, clientEvents) && AllTransmitted(fromClient, clientEvents)
    requires ValidRun(fromServer, fromClient, serverEvents) && AllTransmitted(fromServer, serverEvents)
    requires var client := EndRun(fromClient, true, fromServer, clientEvents);
             var server := EndRun(fromServer, false, fromClient, serverEvents);
             DeliveredFor(client, fromServer, false, rules) && DeliveredFor(server, fromClient, true, rules)
    ensures Merge(EndRun(fromClient, true, fromServer, clientEvents).items, rules) ==
            Merge(EndRun(fromServer, false, fromClient, serverEvents).items, rules)
  {
    var client := EndRun(fromClient, true, fromServer, clientEvents);
    var server := EndRun(fromServer, false, fromClient, serverEvents);
    TransmittedHolds(fromClient, true, fromServer, clientEvents);
    TransmittedHolds(fromServer, false, fromClient, serverEvents);
    BothEndsMergeTheSame(client.items, server.items, fromClient, fromServer,
                         |server.r.delivered|, |client.r.delivered|, rules);
  }

  /** The endpoint has been delivered every message of the peer that the rules cover. */
  ghost predicate DeliveredFor(p: Endpoint, peers: seq<Sent>, peerIsClient: bool, rules: seq<Rule>) {
    && |peers| < 0x1_0000 && p.r.Run? && |p.r.delivered| <= |peers|
    && forall k :: 0 <= k < |rules| ==> Settled(peers, |p.r.delivered|, peerIsClient, rules[k])
  }
}
