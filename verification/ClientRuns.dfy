/** The client's flight 5 in the runs of the 1.2 state machine: it is prepared at most once, with nothing but
    ClientHellos of its own cached, so the hash inputs it predicts are always right (dtls/handshaker.go,
    dtls/internal/flight/flight12/flight1handler.go, flight3handler.go, flight5handler.go). */
module ClientRuns {
  import opened Options
  import opened Bytes
  import opened FlightCache
  import opened F5 = Flight5
  import opened Flight5Agreement
  import opened HandshakeFsm
  import opened FsmRuns

  predicate IsHello(f: Flight) { f == Flight1 || f == Flight3 }

  predicate IsFinal(f: Flight) { f == Flight5 || f == Flight5b }

  // ---------- Flight 5 is prepared at most once ----------

  /** Only the latest flight of a client can be 5 or 5b, and then it is the current one and not prepared again. */
  ghost predicate FinalIsLast(m: Machine) {
    && (forall g :: 0 <= g < |m.prepared| - 1 ==> IsHello(m.prepared[g].flight))
    && (m.prepared != [] ==>
          var last := m.prepared[|m.prepared| - 1].flight;
          IsHello(last) || (IsFinal(last) && m.current == last && m.phase != Preparing))
  }

  lemma FinalStep(cfg: Config, m: Machine, e: Event)
    requires cfg.isClient && OnTrack(cfg, m) && FinalIsLast(m) && Possible(m, e)
    ensures FinalIsLast(Step(cfg, m, e))
  {
    if m.phase == Waiting && e.Received? && e.next.Some? {
      assert e.next.value in NextFlights(m.current);
    }
  }

  lemma {:induction false} FinalStays(cfg: Config, m: Machine, events: seq<Event>)
    requires cfg.isClient && Start(cfg, m) && IsRun(cfg, m, events)
    ensures FinalIsLast(After(cfg, m, events))
  {
    if events != [] {
      var before := events[..|events| - 1];
      FinalStays(cfg, m, before);
      StaysOnTrack(cfg, m, before);
      FinalStep(cfg, After(cfg, m, before), events[|events| - 1]);
    }
  }

  /** In every run of a client: flights 5 and 5b together are prepared at most once. */
  lemma Flight5PreparedOnce(cfg: Config, m: Machine, events: seq<Event>, g: nat, h: nat)
    requires cfg.isClient && Start(cfg, m) && IsRun(cfg, m, events)
    requires g < |After(cfg, m, events).prepared| && h < |After(cfg, m, events).prepared|
    requires IsFinal(After(cfg, m, events).prepared[g].flight) && IsFinal(After(cfg, m, events).prepared[h].flight)
    ensures g == h
  {
    FinalStays(cfg, m, events);
  }

  // ---------- What is cached by then ----------

  /** Every handshake message among the packets is a ClientHello. */
  predicate HelloOnly(packets: seq<Packet>) {
    forall k :: 0 <= k < |packets| && packets[k].content.HandshakeContent? ==> packets[k].content.typ == CLIENT_HELLO
  }

  /** flight1Generate and flight3Generate produce ClientHellos. */
  predicate HelloStep(m: Machine, e: Event) {
    m.phase == Preparing && IsHello(m.current) && e.Generated? ==> HelloOnly(e.packets)
  }

  ghost predicate HelloRun(cfg: Config, m: Machine, events: seq<Event>) {
    if events == [] then forall g :: 0 <= g < |m.prepared| ==> HelloOnly(m.prepared[g].packets)
    else
      var n := |events| - 1;
      HelloRun(cfg, m, events[..n]) && HelloStep(After(cfg, m, events[..n]), events[n])
  }

  ghost predicate HellosPrepared(m: Machine) {
    forall g :: 0 <= g < |m.prepared| && IsHello(m.prepared[g].flight) ==> HelloOnly(m.prepared[g].packets)
  }

  lemma PreparedHellosStep(cfg: Config, m: Machine, e: Event)
    requires HellosPrepared(m) && HelloStep(m, e) && Possible(m, e)
    ensures HellosPrepared(Step(cfg, m, e))
  {
  }

  lemma {:induction false} PreparedHellos(cfg: Config, m: Machine, events: seq<Event>)
    requires IsRun(cfg, m, events) && HelloRun(cfg, m, events)
    ensures HellosPrepared(After(cfg, m, events))
  {
    if events != [] {
      PreparedHellos(cfg, m, events[..|events| - 1]);
      PreparedHellosStep(cfg, After(cfg, m, events[..|events| - 1]), events[|events| - 1]);
    }
  }

  /** What writePackets has pushed for the client itself. */
  function OwnItems(sent: seq<HandshakeFsm.Sent>): seq<Item> {
    if sent == [] then [] else OwnItems(sent[..|sent| - 1]) + CacheItems(sent[|sent| - 1].packets, true)
  }

  lemma {:induction false} CachedHellos(packets: seq<Packet>, x: Item)
    requires HelloOnly(packets) && x in CacheItems(packets, true)
    ensures x.typ == CLIENT_HELLO
  {
    var n := |packets| - 1;
    if x in CacheItems(packets[..n], true) { CachedHellos(packets[..n], x); }
  }

  predicate AllHellos(sent: seq<HandshakeFsm.Sent>) {
    forall i :: 0 <= i < |sent| ==> HelloOnly(sent[i].packets)
  }

  lemma {:induction false} OwnHellos(sent: seq<HandshakeFsm.Sent>, x: Item)
    requires AllHellos(sent) && x in OwnItems(sent)
    ensures x.typ == CLIENT_HELLO
  {
    var n := |sent| - 1;
    if x in OwnItems(sent[..n]) { OwnHellos(sent[..n], x); } else { CachedHellos(sent[n].packets, x); }
  }

  /** The client is about to generate flight 5. */
  ghost predicate AboutToPrepare5(cfg: Config, m: Machine, events: seq<Event>) {
    && cfg.isClient && Start(cfg, m) && IsRun(cfg, m, events) && HelloRun(cfg, m, events)
    && After(cfg, m, events).phase == Preparing && After(cfg, m, events).current == Flight5
  }

  /** No flight that sets the verify data has been prepared, and all that was sent are ClientHellos. */
  lemma OnlyHellosBefore(cfg: Config, m: Machine, events: seq<Event>)
    requires AboutToPrepare5(cfg, m, events)
    ensures var n := After(cfg, m, events);
            (forall g :: 0 <= g < |n.prepared| ==> IsHello(n.prepared[g].flight)) && AllHellos(n.sent)
  {
    var n := After(cfg, m, events);
    FinalStays(cfg, m, events);
    PreparedHellos(cfg, m, events);
    StaysAsPrepared(cfg, m, events);
    forall i | 0 <= i < |n.sent| ensures HelloOnly(n.sent[i].packets) {
      assert n.sent[i].packets == PacketsOf(n.prepared, n.sent[i].generation);
    }
  }

  /** The client entries of a cache are those writePackets pushed; the rest came from the server. */
  ghost predicate CacheOf(items: seq<Item>, sent: seq<HandshakeFsm.Sent>) {
    forall x :: x in items && x.isClient ==> x in OwnItems(sent)
  }

  lemma NothingMatches(items: seq<Item>, sent: seq<HandshakeFsm.Sent>, r: Rule)
    requires CacheOf(items, sent) && AllHellos(sent)
    requires r.isClient && r.typ != CLIENT_HELLO
    ensures Last(items, r).None?
  {
    LastIsHighest(items, r);
    forall y | y in items ensures !Matches(y, r) {
      if Matches(y, r) { OwnHellos(sent, y); }
    }
  }

  /** Whenever a client prepares flight 5, its cache holds no earlier copy of the flight. */
  lemma FirstWheneverPrepared(cfg: Config, m: Machine, events: seq<Event>, items: seq<Item>, inp: Inputs, epoch: u16)
    requires AboutToPrepare5(cfg, m, events) && CacheOf(items, After(cfg, m, events).sent)
    ensures FirstFlight5(items, inp, epoch) && FirstFinished(items, inp, epoch)
  {
    var sent := After(cfg, m, events).sent;
    OnlyHellosBefore(cfg, m, events);
    NothingMatches(items, sent, CertRule(epoch));
    NothingMatches(items, sent, KeyRule(epoch));
    NothingMatches(items, sent, VerifyRule(epoch));
    NothingMatches(items, sent, ClientFinishedRule(epoch));
  }

  /** So in every run of a client the predicted inputs are what its cache yields once flight 5 is in it. */
  lemma PredictionsAlwaysHold(cfg: Config, m: Machine, events: seq<Event>, items: seq<Item>, inp: Inputs,
                              signed: seq<byte>, first: int, epoch: u16, finished: seq<byte>)
    requires AboutToPrepare5(cfg, m, events) && CacheOf(items, After(cfg, m, events).sent) && WholeMessages(items)
    ensures var after := items + Added(inp, signed, first, epoch, finished);
            && Merge(after, SessionRules(epoch)) == SessionInput(items, epoch, inp, first)
            && Merge(after, FinishedRules(epoch)) == FinishedInput(items, epoch, inp, signed, first)
  {
    FirstWheneverPrepared(cfg, m, events, items, inp, epoch);
    SessionInputPredicted(items, inp, signed, first, epoch, finished);
    FinishedInputPredicted(items, inp, signed, first, epoch, finished);
  }

  /** And a server whose cache has the same entries hashes the same. */
  lemma ServersAlwaysAgree(cfg: Config, m: Machine, events: seq<Event>, items: seq<Item>, server: seq<Item>,
                           inp: Inputs, signed: seq<byte>, first: int, epoch: u16, finished: seq<byte>)
    requires AboutToPrepare5(cfg, m, events) && CacheOf(items, After(cfg, m, events).sent) && WholeMessages(items)
    requires Functional(server)
    requires forall k :: 0 <= k < |FinishedRules(epoch)| ==>
               SameFor(server, items + Added(inp, signed, first, epoch, finished), FinishedRules(epoch)[k])
    ensures Merge(server, SessionRules(epoch)) == SessionInput(items, epoch, inp, first)
    ensures Merge(server, FinishedRules(epoch)) == FinishedInput(items, epoch, inp, signed, first)
  {
    FirstWheneverPrepared(cfg, m, events, items, inp, epoch);
    ServerHashesPrediction(items, server, inp, signed, first, epoch, finished);
  }
}
