/** What every run of the DTLS 1.2 handshake state machine keeps. */
module FsmRuns {
  import opened Bytes
  import opened Options
  import opened F5 = Flight5
  import opened HandshakeFsm

  // ---------- Flights and phases ----------

  function Visits(isClient: bool): set<Flight> {
    if isClient then {Flight1, Flight3, Flight5, Flight5b} else {Flight0, Flight2, Flight4, Flight4b, Flight6}
  }

  /** The side keeps to its own flights, ends only in a final one, and waits only where an answer can come. */
  ghost predicate OnTrack(cfg: Config, m: Machine) {
    && m.current in Visits(cfg.isClient)
    && (m.phase == Finished ==> m.current in {Flight4b, Flight5, Flight5b, Flight6})
    && (m.phase == Waiting ==> !IsLastSendFlight(m.current))
    && (m.phase == Sending || m.phase == Waiting || (m.phase == Finished && !cfg.isClient) ==>
          m.current == Flight6 || (m.retransmit <==> Retransmits(m.current)))
  }

  lemma TrackStep(cfg: Config, m: Machine, e: Event)
    requires OnTrack(cfg, m) && Possible(m, e)
    ensures OnTrack(cfg, Step(cfg, m, e)) && Rank(m.current) <= Rank(Step(cfg, m, e).current)
  {
    if m.phase == Waiting && e.Received? && e.next.Some? {
      assert e.next.value in NextFlights(m.current);
    }
  }

  lemma {:induction false} StaysOnTrack(cfg: Config, m: Machine, events: seq<Event>)
    requires Start(cfg, m) && IsRun(cfg, m, events)
    ensures OnTrack(cfg, After(cfg, m, events))
  {
    if events != [] {
      StaysOnTrack(cfg, m, events[..|events| - 1]);
      TrackStep(cfg, After(cfg, m, events[..|events| - 1]), events[|events| - 1]);
    }
  }

  /** Flight rank never decreases, between any two moments of a run. */
  lemma {:induction false} RankNeverDecreases(cfg: Config, m: Machine, events: seq<Event>, i: nat)
    requires Start(cfg, m) && IsRun(cfg, m, events) && i <= |events|
    ensures Rank(After(cfg, m, events[..i]).current) <= Rank(After(cfg, m, events).current)
  {
    var n := |events| - 1;
    if i <= n {
      RankNeverDecreases(cfg, m, events[..n], i);
      StaysOnTrack(cfg, m, events[..n]);
      TrackStep(cfg, After(cfg, m, events[..n]), events[n]);
      assert events[..n][..i] == events[..i];
    } else {
      assert events[..i] == events;
    }
  }

  // ---------- Retransmission ----------

  function PacketsOf(prepared: seq<Prepared>, generation: nat): seq<Packet>
    requires generation <= |prepared|
  {
    if generation == 0 then [] else prepared[generation - 1].packets
  }

  predicate Silent(prepared: seq<Prepared>, generation: nat)
    requires generation <= |prepared|
  {
    generation > 0 && !Retransmits(prepared[generation - 1].flight)
  }

  ghost predicate SentAsPrepared(m: Machine) {
    && (m.phase != Errored ==> m.flights == PacketsOf(m.prepared, |m.prepared|))
    && (forall i :: 0 <= i < |m.sent| ==> m.sent[i].generation <= |m.prepared|)
    && (forall i :: 0 <= i < |m.sent| ==> m.sent[i].packets == PacketsOf(m.prepared, m.sent[i].generation))
  }

  lemma PreparedStep(cfg: Config, m: Machine, e: Event)
    requires SentAsPrepared(m) && Possible(m, e)
    ensures SentAsPrepared(Step(cfg, m, e))
  {
    if m.phase == Preparing && e.Generated? {
      var p := Prepared(m.current, Stamped(e.packets, FirstNumber(m.current, m.sendSequence), cfg.initialEpoch));
      assert forall g :: 0 <= g <= |m.prepared| ==> PacketsOf(m.prepared + [p], g) == PacketsOf(m.prepared, g);
    }
  }

  lemma {:induction false} StaysAsPrepared(cfg: Config, m: Machine, events: seq<Event>)
    requires Start(cfg, m) && IsRun(cfg, m, events)
    ensures SentAsPrepared(After(cfg, m, events))
  {
    if events != [] {
      StaysAsPrepared(cfg, m, events[..|events| - 1]);
      PreparedStep(cfg, After(cfg, m, events[..|events| - 1]), events[|events| - 1]);
    }
  }

  /** Every resend of a flight carries the same packets, message numbers included, as its first send. */
  lemma ResendsRepeat(cfg: Config, m: Machine, events: seq<Event>, i: nat, j: nat)
    requires Start(cfg, m) && IsRun(cfg, m, events)
    requires i < |After(cfg, m, events).sent| && j < |After(cfg, m, events).sent|
    requires After(cfg, m, events).sent[i].generation == After(cfg, m, events).sent[j].generation
    ensures After(cfg, m, events).sent[i].packets == After(cfg, m, events).sent[j].packets
  {
    StaysAsPrepared(cfg, m, events);
  }

  /** The latest flight is the current one, and an unsent one has not been sent yet. */
  ghost predicate LatestIsCurrent(m: Machine) {
    && (m.prepared != [] && m.phase in {Sending, Waiting, Finished} ==>
          m.prepared[|m.prepared| - 1].flight == m.current)
    && (m.prepared == [] ==> m.current != Flight2 || m.phase in {Preparing, Errored})
  }

  ghost predicate SilentOnce(m: Machine) {
    && (forall i :: 0 <= i < |m.sent| ==> m.sent[i].generation <= |m.prepared|)
    && (forall i, j :: 0 <= i < j < |m.sent| && Silent(m.prepared, m.sent[i].generation) ==>
          m.sent[i].generation != m.sent[j].generation)
    && (m.phase == Sending && Silent(m.prepared, |m.prepared|) ==>
          forall i :: 0 <= i < |m.sent| ==> m.sent[i].generation != |m.prepared|)
  }

  lemma LatestStep(cfg: Config, m: Machine, e: Event)
    requires OnTrack(cfg, m) && LatestIsCurrent(m) && Possible(m, e)
    ensures LatestIsCurrent(Step(cfg, m, e))
  {
  }

  lemma {:induction false} LatestStays(cfg: Config, m: Machine, events: seq<Event>)
    requires Start(cfg, m) && IsRun(cfg, m, events)
    ensures LatestIsCurrent(After(cfg, m, events))
  {
    if events != [] {
      var before := events[..|events| - 1];
      LatestStays(cfg, m, before);
      StaysOnTrack(cfg, m, before);
      LatestStep(cfg, After(cfg, m, before), events[|events| - 1]);
    }
  }

  lemma SilentPrepare(m: Machine, p: Prepared)
    requires SilentOnce(m) && m.phase == Preparing
    ensures SilentOnce(m.(phase := Sending, prepared := m.prepared + [p]))
  {
    assert forall g :: 0 <= g <= |m.prepared| ==> Silent(m.prepared + [p], g) == Silent(m.prepared, g);
  }

  /** What SilentOnce depends on. */
  lemma SilentSame(m: Machine, n: Machine)
    requires SilentOnce(m) && n.sent == m.sent && n.prepared == m.prepared
    requires n.phase == Sending ==> m.phase == Sending || !Silent(m.prepared, |m.prepared|)
    ensures SilentOnce(n)
  {
  }

  lemma SilentSend(m: Machine, e: Event)
    requires SilentOnce(m) && m.phase == Sending && e.Written?
    ensures SilentOnce(SendStep(m, e))
  {
  }

  lemma SilentStep(cfg: Config, m: Machine, e: Event)
    requires OnTrack(cfg, m) && LatestIsCurrent(m) && SilentOnce(m) && Possible(m, e)
    ensures SilentOnce(Step(cfg, m, e))
  {
    var n := Step(cfg, m, e);
    if m.phase == Preparing && e.Generated? {
      var p := n.prepared[|m.prepared|];
      SilentPrepare(m, p);
      SilentSame(m.(phase := Sending, prepared := m.prepared + [p]), n);
    } else if m.phase == Sending && e.Written? {
      SilentSend(m, e);
    } else {
      SilentSame(m, n);
    }
  }

  /** A HelloVerifyRequest goes out once per time it is prepared: no timer resends it. */
  lemma {:induction false} Flight2IsNeverResent(cfg: Config, m: Machine, events: seq<Event>)
    requires Start(cfg, m) && IsRun(cfg, m, events)
    ensures SilentOnce(After(cfg, m, events))
    ensures var n := After(cfg, m, events); n.phase == Waiting && n.current == Flight2 ==> Step(cfg, n, TimerFired) == n
  {
    StaysOnTrack(cfg, m, events);
    if events != [] {
      var before := events[..|events| - 1];
      Flight2IsNeverResent(cfg, m, before);
      StaysOnTrack(cfg, m, before);
      LatestStays(cfg, m, before);
      SilentStep(cfg, After(cfg, m, before), events[|events| - 1]);
    }
  }

  // ---------- Message numbers ----------

  /** The number due after the first `g` flights: each continues where the last stopped, and flight 2 restarts. */
  function Due(prepared: seq<Prepared>, g: nat): nat
    requires g <= |prepared|
  {
    if g == 0 then 0
    else FirstNumber(prepared[g - 1].flight, Due(prepared, g - 1)) +
         HandshakesBefore(prepared[g - 1].packets, |prepared[g - 1].packets|)
  }

  /** The k-th handshake message of flight `g` has the k-th number from where the flight starts. */
  ghost predicate NumberedFrom(packets: seq<Packet>, first: nat) {
    forall k :: 0 <= k < |packets| && packets[k].content.HandshakeContent? ==>
      packets[k].content.messageSequence == Wrap16(first + HandshakesBefore(packets, k))
  }

  ghost predicate Consecutive(prepared: seq<Prepared>) {
    forall g :: 0 <= g < |prepared| ==>
      NumberedFrom(prepared[g].packets, FirstNumber(prepared[g].flight, Due(prepared, g)))
  }

  lemma {:induction false} SameHandshakes(a: seq<Packet>, b: seq<Packet>, k: nat)
    requires |a| == |b| && k <= |a|
    requires forall i :: 0 <= i < |a| ==> a[i].content.HandshakeContent? == b[i].content.HandshakeContent?
    ensures HandshakesBefore(a, k) == HandshakesBefore(b, k)
  {
    if k > 0 { SameHandshakes(a, b, k - 1); }
  }

  lemma StampedIsNumbered(packets: seq<Packet>, first: nat, epoch: u16)
    ensures NumberedFrom(Stamped(packets, first, epoch), first)
    ensures var s := Stamped(packets, first, epoch); HandshakesBefore(s, |s|) == HandshakesBefore(packets, |packets|)
  {
    var s := Stamped(packets, first, epoch);
    forall k | 0 <= k <= |s| ensures HandshakesBefore(s, k) == HandshakesBefore(packets, k) {
      SameHandshakes(s, packets, k);
    }
  }

  lemma {:induction false} DuePrefix(a: seq<Prepared>, b: seq<Prepared>, g: nat)
    requires a <= b && g <= |a|
    ensures Due(a, g) == Due(b, g)
  {
    if g > 0 { DuePrefix(a, b, g - 1); }
  }

  lemma AppendConsecutive(prepared: seq<Prepared>, p: Prepared)
    requires Consecutive(prepared) && NumberedFrom(p.packets, FirstNumber(p.flight, Due(prepared, |prepared|)))
    ensures Consecutive(prepared + [p])
    ensures Due(prepared + [p], |prepared| + 1) ==
            FirstNumber(p.flight, Due(prepared, |prepared|)) + HandshakesBefore(p.packets, |p.packets|)
  {
    forall g | 0 <= g <= |prepared| ensures Due(prepared + [p], g) == Due(prepared, g) {
      DuePrefix(prepared, prepared + [p], g);
    }
  }

  /** A machine resumed in FINISHED numbers nothing. */
  ghost predicate Numbering(m: Machine) {
    && Consecutive(m.prepared)
    && (m.phase != Errored ==> m.sendSequence == Due(m.prepared, |m.prepared|))
  }

  lemma OthersNumberNothing(cfg: Config, m: Machine, e: Event)
    requires Possible(m, e) && !(m.phase == Preparing && e.Generated?)
    ensures var n := Step(cfg, m, e);
            n.prepared == m.prepared && (n.phase == Errored || n.sendSequence == m.sendSequence)
  {
  }

  lemma PrepareNumbers(cfg: Config, m: Machine, e: Event)
    requires Numbering(m) && m.phase == Preparing && e.Generated?
    ensures Numbering(PrepareStep(cfg, m, e))
  {
    var first := FirstNumber(m.current, m.sendSequence);
    StampedIsNumbered(e.packets, first, cfg.initialEpoch);
    AppendConsecutive(m.prepared, Prepared(m.current, Stamped(e.packets, first, cfg.initialEpoch)));
  }

  lemma NumberingStep(cfg: Config, m: Machine, e: Event)
    requires Numbering(m) && Possible(m, e)
    ensures Numbering(Step(cfg, m, e))
  {
    if m.phase == Preparing && e.Generated? {
      PrepareNumbers(cfg, m, e);
    } else {
      OthersNumberNothing(cfg, m, e);
    }
  }

  /** A resumed machine never prepares a flight. */
  lemma {:induction false} ResumedPreparesNothing(cfg: Config, m: Machine, events: seq<Event>)
    requires Start(cfg, m) && m.phase == Finished && IsRun(cfg, m, events)
    ensures var n := After(cfg, m, events);
            && n.prepared == [] && n.current == m.current && n.phase in {Finished, Sending, Errored}
            && (cfg.isClient ==> n.phase != Sending)
  {
    if events != [] {
      ResumedPreparesNothing(cfg, m, events[..|events| - 1]);
    }
  }

  lemma StartNumbering(cfg: Config, m: Machine)
    requires Start(cfg, m) && m.phase != Finished
    ensures Numbering(m)
  {
    if m.phase == Waiting {
      var hello :| m == DualStack(cfg, hello);
      StampedIsNumbered(hello, 0, cfg.initialEpoch);
      AppendConsecutive([], Prepared(Flight1, m.flights));
      assert m.prepared == [] + [Prepared(Flight1, m.flights)];
    }
  }

  lemma {:induction false} KeepsNumbering(cfg: Config, m: Machine, events: seq<Event>)
    requires Start(cfg, m) && m.phase != Finished && IsRun(cfg, m, events)
    ensures Numbering(After(cfg, m, events))
  {
    if events == [] {
      StartNumbering(cfg, m);
    } else {
      KeepsNumbering(cfg, m, events[..|events| - 1]);
      NumberingStep(cfg, After(cfg, m, events[..|events| - 1]), events[|events| - 1]);
    }
  }

  /** Across the flights of a run, message numbers are consecutive, with flight 2 restarting at 0. */
  lemma NumbersAreConsecutive(cfg: Config, m: Machine, events: seq<Event>)
    requires Start(cfg, m) && IsRun(cfg, m, events)
    ensures Consecutive(After(cfg, m, events).prepared)
  {
    if m.phase == Finished {
      ResumedPreparesNothing(cfg, m, events);
    } else {
      KeepsNumbering(cfg, m, events);
    }
  }

  // ---------- Retransmission interval ----------

  function Pow2(k: nat): (p: nat)
    ensures p >= 1
  {
    if k == 0 then 1 else 2 * Pow2(k - 1)
  }

  function Min(a: int, b: int): int { if a <= b then a else b }

  /** The interval after `k` timeouts since it was last reset. */
  function Backoff(cfg: Config, k: nat): int {
    if k == 0 then cfg.initialInterval
    else if cfg.disableBackoff then Min(cfg.initialInterval, MAX_INTERVAL)
    else Min(cfg.initialInterval * Pow2(k), MAX_INTERVAL)
  }

  predicate NoOverflow(cfg: Config) {
    cfg.disableBackoff || cfg.initialInterval < 0x4000_0000_0000_0000
  }

  lemma DoubleOnce(initial: nat, p: nat)
    requires p >= 1
    ensures Min(2 * Min(initial * p, MAX_INTERVAL), MAX_INTERVAL) == Min(initial * (2 * p), MAX_INTERVAL)
  {
    assert initial * (2 * p) == 2 * (initial * p);
  }

  lemma BackoffStep(cfg: Config, k: nat)
    requires NoOverflow(cfg)
    ensures NextInterval(cfg, Backoff(cfg, k)) == Backoff(cfg, k + 1)
  {
    if !cfg.disableBackoff {
      if k == 0 {
        assert Pow2(1) == 2;
      } else {
        DoubleOnce(cfg.initialInterval, Pow2(k));
      }
    }
  }

  lemma IntervalStep(cfg: Config, m: Machine, e: Event)
    requires Possible(m, e) && NoOverflow(cfg) && m.interval == Backoff(cfg, m.timeouts)
    ensures Step(cfg, m, e).interval == Backoff(cfg, Step(cfg, m, e).timeouts)
  {
    BackoffStep(cfg, m.timeouts);
  }

  /** After k timeouts without a new message the interval is min(initial * 2^k, 60 s). */
  lemma {:induction false} IntervalBacksOff(cfg: Config, m: Machine, events: seq<Event>)
    requires Start(cfg, m) && IsRun(cfg, m, events) && NoOverflow(cfg)
    ensures BackedOff(cfg, m, events)
  {
    if events != [] {
      var before := events[..|events| - 1];
      IntervalBacksOff(cfg, m, before);
      IntervalStep(cfg, After(cfg, m, before), events[|events| - 1]);
    }
  }

  ghost predicate BackedOff(cfg: Config, m: Machine, events: seq<Event>) {
    After(cfg, m, events).interval == Backoff(cfg, After(cfg, m, events).timeouts)
  }

  lemma OneStep(cfg: Config, m: Machine, events: seq<Event>, e: Event)
    requires IsRun(cfg, m, events) && Possible(After(cfg, m, events), e)
    ensures IsRun(cfg, m, events + [e]) && After(cfg, m, events + [e]) == Step(cfg, After(cfg, m, events), e)
  {
    assert (events + [e])[..|events + [e]| - 1] == events;
  }

  /** The first timeout of a fresh run, with nothing to send. */
  lemma FirstTimeout(cfg: Config) returns (m: Machine, events: seq<Event>)
    ensures Start(cfg, m) && IsRun(cfg, m, events)
    ensures After(cfg, m, events).timeouts == 1 &&
            After(cfg, m, events).interval == NextInterval(cfg, cfg.initialInterval)
  {
    m := Begin(cfg, if cfg.isClient then Flight1 else Flight0, Preparing, 0);
    OneStep(cfg, m, [], Generated([]));
    events := [] + [Generated([])];
    OneStep(cfg, m, events, Written);
    events := events + [Written];
    OneStep(cfg, m, events, TimerFired);
    events := events + [TimerFired];
  }

  /** Over all runs that holds if and only if backoff is off or the first doubling fits in a time.Duration. */
  lemma IntervalBacksOffIff(cfg: Config)
    requires cfg.initialInterval < 0x8000_0000_0000_0000
    ensures (forall m, events :: Start(cfg, m) && IsRun(cfg, m, events) ==> BackedOff(cfg, m, events)) <==>
            NoOverflow(cfg)
  {
    if NoOverflow(cfg) {
      forall m, events | Start(cfg, m) && IsRun(cfg, m, events) ensures BackedOff(cfg, m, events) {
        IntervalBacksOff(cfg, m, events);
      }
    } else {
      var m, events := FirstTimeout(cfg);
      assert Pow2(1) == 2;
      assert !BackedOff(cfg, m, events);
    }
  }

  /** An initial interval within the bound is never exceeded past 60 s, whatever the timeouts. */
  lemma BackoffOfShortInitial(cfg: Config, k: nat)
    requires cfg.initialInterval <= MAX_INTERVAL && !cfg.disableBackoff
    ensures Backoff(cfg, k) == Min(cfg.initialInterval * Pow2(k), MAX_INTERVAL)
  {
    if k == 0 { assert cfg.initialInterval * Pow2(0) == cfg.initialInterval; }
  }

  /** k straight timeouts, each followed by the resend it causes. */
  function Timeouts(k: nat): seq<Event> {
    if k == 0 then [] else Timeouts(k - 1) + [TimerFired, Written]
  }

  lemma TwoSteps(cfg: Config, m: Machine, events: seq<Event>, a: Event, b: Event)
    ensures After(cfg, m, events + [a, b]) == Step(cfg, Step(cfg, After(cfg, m, events), a), b)
    ensures IsRun(cfg, m, events) && Possible(After(cfg, m, events), a) &&
            Possible(Step(cfg, After(cfg, m, events), a), b) ==>
            IsRun(cfg, m, events + [a, b])
  {
    var one := events + [a];
    var two := events + [a, b];
    assert one[..|one| - 1] == events;
    assert two[..|two| - 1] == one;
  }

  /** From a wait that follows a reset, k straight timeouts resend the flight k times and leave the interval at
      min(initial * 2^k, 60 s). */
  lemma {:induction false} StraightTimeouts(cfg: Config, m: Machine, k: nat)
    requires m.phase == Waiting && m.retransmit && !IsLastSendFlight(m.current)
    requires m.timeouts == 0 && m.interval == cfg.initialInterval <= MAX_INTERVAL && !cfg.disableBackoff
    ensures IsRun(cfg, m, Timeouts(k))
    ensures var n := After(cfg, m, Timeouts(k));
            && n.phase == Waiting && n.current == m.current && n.retransmit && n.timeouts == k
            && n.interval == Min(cfg.initialInterval * Pow2(k), MAX_INTERVAL)
            && |n.sent| == |m.sent| + k
  {
    if k > 0 {
      StraightTimeouts(cfg, m, k - 1);
      TwoSteps(cfg, m, Timeouts(k - 1), TimerFired, Written);
      BackoffStep(cfg, k - 1);
      BackoffOfShortInitial(cfg, k - 1);
      BackoffOfShortInitial(cfg, k);
    }
  }
}
