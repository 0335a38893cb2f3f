/** The DTLS 1.2 handshake state machine: PREPARING, SENDING, WAITING and FINISHED over the flights
    (dtls/handshaker.go, dtls/internal/flight/flight12/flight12.go, flighthandler12.go). The flight parsers are
    kept as the set of next flights they can return. */
module HandshakeFsm {
  import opened Bytes
  import opened Options
  import opened F5 = Flight5

  datatype Flight = Flight0 | Flight1 | Flight2 | Flight3 | Flight4 | Flight4b | Flight5 | Flight5b | Flight6

  function Rank(f: Flight): nat {
    match f
    case Flight0 => 1
    case Flight1 => 2
    case Flight2 => 3
    case Flight3 => 4
    case Flight4 => 5
    case Flight4b => 6
    case Flight5 => 7
    case Flight5b => 8
    case Flight6 => 9
  }

  predicate IsLastSendFlight(f: Flight) { f == Flight6 || f == Flight5b }

  predicate IsLastRecvFlight(f: Flight) { f == Flight5 || f == Flight4b }

  /** The flights a flight's parser can move to. Every parser can also ask for more input. */
  function NextFlights(f: Flight): set<Flight> {
    match f
    case Flight0 => {Flight2, Flight4, Flight4b}
    case Flight1 => {Flight3, Flight5, Flight5b}
    case Flight2 => {Flight2, Flight4, Flight4b}
    case Flight3 => {Flight3, Flight5, Flight5b}
    case Flight4 => {Flight6}
    case Flight4b => {Flight4b}
    case Flight5 => {Flight5}
    case Flight5b => {Flight5b}
    case Flight6 => {Flight6}
  }

  /** GetGenerator's flag: a HelloVerifyRequest must not be retransmitted. */
  predicate Retransmits(f: Flight) { f != Flight2 }

  datatype Phase = Errored | Preparing | Sending | Waiting | Finished

  // ---------- Retransmission interval ----------

  const MAX_INTERVAL := 60_000_000_000  // nanoseconds

  /** time.Duration is a 64-bit signed count. */
  function Double(d: int): int {
    if 2 * d >= 0x8000_0000_0000_0000 then 2 * d - 0x1_0000_0000_0000_0000 else 2 * d
  }

  function NextInterval(cfg: Config, d: int): int {
    var doubled := if cfg.disableBackoff then d else Double(d);
    if doubled > MAX_INTERVAL then MAX_INTERVAL else doubled
  }

  datatype Config = Config(isClient: bool, initialInterval: nat, disableBackoff: bool, initialEpoch: u16)

  // ---------- Machine ----------

  /** A flight as prepare stamped it. */
  datatype Prepared = Prepared(flight: Flight, packets: seq<Packet>)

  /** One call of writePackets: `generation` flights had been prepared by then. */
  datatype Sent = Sent(generation: nat, packets: seq<Packet>)

  /** `prepared`, `sent` and `timeouts` (since the interval was last reset) record the history. */
  datatype Machine = Machine(current: Flight, phase: Phase, flights: seq<Packet>, retransmit: bool, interval: int,
                             sendSequence: nat, prepared: seq<Prepared>, sent: seq<Sent>, timeouts: nat)

  datatype Event =
    | Generated(packets: seq<Packet>)
    | GeneratorFailed
    | Written
    | WriteFailed
    | Received(isRetransmit: bool, next: Option<Flight>)
    | ParserFailed(isRetransmit: bool)
    | TimerFired
    | ContextDone

  predicate Possible(m: Machine, e: Event) {
    match m.phase
    case Preparing => e.Generated? || e.GeneratorFailed?
    case Sending => e.Written? || e.WriteFailed?
    case Waiting =>
      || (e.Received? && (e.next.Some? ==> e.next.value in NextFlights(m.current)))
      || e.ParserFailed? || e.TimerFired? || e.ContextDone?
    case Finished => e.Received? || e.ContextDone?
    case Errored => false
  }

  /** flight2Generate restarts the message sequence. */
  function FirstNumber(f: Flight, sendSequence: nat): nat {
    if f == Flight2 then 0 else sendSequence
  }

  function Stamped(packets: seq<Packet>, first: nat, epoch: u16): seq<Packet> {
    seq(|packets|, k requires 0 <= k < |packets| => StampedAt(packets, k, first, epoch))
  }

  function PrepareStep(cfg: Config, m: Machine, e: Event): Machine {
    var first := FirstNumber(m.current, m.sendSequence);
    var started := m.(retransmit := Retransmits(m.current), sendSequence := first);
    if e.Generated? then
      var packets := Stamped(e.packets, first, cfg.initialEpoch);
      started.(phase := Sending, flights := packets, sendSequence := first + HandshakesBefore(e.packets, |e.packets|),
               prepared := m.prepared + [Prepared(m.current, packets)])
    else started.(phase := Errored, flights := [])
  }

  function SendStep(m: Machine, e: Event): Machine {
    if e.Written? then
      m.(phase := if IsLastSendFlight(m.current) then Finished else Waiting,
         sent := m.sent + [Sent(|m.prepared|, m.flights)])
    else m.(phase := Errored)
  }

  /** Only a message that is not a retransmission resets the interval. */
  function Reset(cfg: Config, m: Machine, isRetransmit: bool): Machine {
    if isRetransmit then m else m.(interval := cfg.initialInterval, timeouts := 0)
  }

  function WaitStep(cfg: Config, m: Machine, e: Event): Machine {
    match e
    case Received(isRetransmit, None) => Reset(cfg, m, isRetransmit)
    case Received(isRetransmit, Some(next)) =>
      if IsLastRecvFlight(next) && m.current == next then Reset(cfg, m, isRetransmit).(phase := Finished)
      else Reset(cfg, m, isRetransmit).(current := next, phase := Preparing)
    case ParserFailed(isRetransmit) => Reset(cfg, m, isRetransmit).(phase := Errored)
    case TimerFired =>
      if !m.retransmit then m
      else m.(phase := Sending, interval := NextInterval(cfg, m.interval), timeouts := m.timeouts + 1)
    case _ => Reset(cfg, m, false).(phase := Errored)
  }

  function FinishStep(cfg: Config, m: Machine, e: Event): Machine {
    m.(phase := if e.ContextDone? then Errored else if cfg.isClient then Finished else Sending)
  }

  function Step(cfg: Config, m: Machine, e: Event): Machine {
    match m.phase
    case Preparing => PrepareStep(cfg, m, e)
    case Sending => SendStep(m, e)
    case Waiting => WaitStep(cfg, m, e)
    case Finished => FinishStep(cfg, m, e)
    case Errored => m
  }

  function After(cfg: Config, m: Machine, events: seq<Event>): Machine {
    if events == [] then m
    else Step(cfg, After(cfg, m, events[..|events| - 1]), events[|events| - 1])
  }

  ghost predicate IsRun(cfg: Config, m: Machine, events: seq<Event>) {
    events == [] ||
    (IsRun(cfg, m, events[..|events| - 1]) && Possible(After(cfg, m, events[..|events| - 1]), events[|events| - 1]))
  }

  function Begin(cfg: Config, f: Flight, phase: Phase, sendSequence: nat): Machine {
    Machine(f, phase, [], false, cfg.initialInterval, sendSequence, [], [], 0)
  }

  /** The five ways prepareHandshakeStart starts this machine: fresh, resumed from a saved state, or, for a
      dual-stack client, waiting with a ClientHello it has already numbered and sent. */
  ghost predicate Start(cfg: Config, m: Machine) {
    || (!cfg.isClient && m == Begin(cfg, Flight0, Preparing, 0))
    || (cfg.isClient && m == Begin(cfg, Flight1, Preparing, 0))
    || (!cfg.isClient && m == Begin(cfg, Flight6, Finished, m.sendSequence))
    || (cfg.isClient && m == Begin(cfg, Flight5, Finished, m.sendSequence))
    || (cfg.isClient && exists hello :: m == DualStack(cfg, hello))
  }

  function DualStack(cfg: Config, hello: seq<Packet>): Machine {
    var packets := Stamped(hello, 0, cfg.initialEpoch);
    Begin(cfg, Flight1, Waiting, HandshakesBefore(hello, |hello|))
      .(flights := packets, retransmit := true, prepared := [Prepared(Flight1, packets)], sent := [Sent(1, packets)])
  }

  lemma {:induction false} RunAt(cfg: Config, m: Machine, events: seq<Event>, i: nat)
    requires IsRun(cfg, m, events) && i <= |events|
    ensures IsRun(cfg, m, events[..i])
    ensures i < |events| ==> Possible(After(cfg, m, events[..i]), events[i])
    ensures i < |events| ==> After(cfg, m, events[..i + 1]) == Step(cfg, After(cfg, m, events[..i]), events[i])
  {
    var n := |events| - 1;
    if i <= n { assert events[..i + 1][..i] == events[..i]; }
    if i < n {
      RunAt(cfg, m, events[..n], i);
      assert events[..n][..i] == events[..i];
    } else if i == |events| {
      assert events[..i] == events;
    }
  }

  // ---------- The machine in place ----------

  class Fsm {
    const cfg: Config
    var currentFlight: Flight
    var flights: seq<Packet>
    var retransmit: bool
    var retransmitInterval: int
    var handshakeSendSequence: nat
    ghost var prepared: seq<Prepared>
    ghost var sent: seq<Sent>
    ghost var timeouts: nat

    ghost function Value(phase: Phase): Machine
      reads this
    {
      Machine(currentFlight, phase, flights, retransmit, retransmitInterval, handshakeSendSequence, prepared, sent,
              timeouts)
    }

    method Prepare(e: Event) returns (state: Phase)
      requires e.Generated? || e.GeneratorFailed?
      modifies this
      ensures Value(state) == Step(cfg, old(Value(Preparing)), e)
    {
      flights := [];
      if currentFlight == Flight2 {
        handshakeSendSequence := 0;
      }
      retransmit := Retransmits(currentFlight);
      if e.GeneratorFailed? {
        return Errored;
      }
      var out, next := F5.Prepare(e.packets, handshakeSendSequence, cfg.initialEpoch);
      assert out == Stamped(e.packets, handshakeSendSequence, cfg.initialEpoch);
      flights, handshakeSendSequence := out, next;
      prepared := prepared + [Prepared(currentFlight, flights)];
      return Sending;
    }

    method Send(e: Event) returns (state: Phase)
      requires e.Written? || e.WriteFailed?
      modifies this
      ensures Value(state) == Step(cfg, old(Value(Sending)), e)
    {
      if e.WriteFailed? {
        return Errored;
      }
      sent := sent + [Sent(|prepared|, flights)];
      if IsLastSendFlight(currentFlight) {
        return Finished;
      }
      return Waiting;
    }

    /** One pass of wait's select. `done` when wait returns. */
    method Select(e: Event) returns (state: Phase, done: bool)
      requires Possible(Value(Waiting), e)
      modifies this
      ensures Value(state) == Step(cfg, old(Value(Waiting)), e)
      ensures !done ==> state == Waiting
    {
      match e
      case Received(isRetransmit, next) =>
        if !isRetransmit {
          retransmitInterval, timeouts := cfg.initialInterval, 0;
        }
        if next.None? {
          return Waiting, false;
        }
        if IsLastRecvFlight(next.value) && currentFlight == next.value {
          return Finished, true;
        }
        currentFlight := next.value;
        return Preparing, true;
      case ParserFailed(isRetransmit) =>
        if !isRetransmit {
          retransmitInterval, timeouts := cfg.initialInterval, 0;
        }
        return Errored, true;
      case TimerFired =>
        if !retransmit {
          return Waiting, true;
        }
        if !cfg.disableBackoff {
          retransmitInterval := Double(retransmitInterval);
        }
        if retransmitInterval > MAX_INTERVAL {
          retransmitInterval := MAX_INTERVAL;
        }
        timeouts := timeouts + 1;
        return Sending, true;
      case ContextDone =>
        retransmitInterval, timeouts := cfg.initialInterval, 0;
        return Errored, true;
    }

    /** Waits from event `i` on, and says which event comes next. */
    method Wait(ghost m: Machine, events: seq<Event>, i: nat) returns (state: Phase, next: nat)
      requires IsRun(cfg, m, events) && i < |events| && Value(Waiting) == After(cfg, m, events[..i])
      modifies this
      ensures i < next <= |events| && Value(state) == After(cfg, m, events[..next])
    {
      var done := false;
      state, next := Waiting, i;
      while !done && next < |events|
        invariant i <= next <= |events| && (!done ==> state == Waiting) && (next == i ==> !done)
        invariant Value(state) == After(cfg, m, events[..next])
        decreases |events| - next
      {
        RunAt(cfg, m, events, next);
        state, done := Select(events[next]);
        next := next + 1;
      }
    }

    method Finish(e: Event) returns (state: Phase)
      requires e.Received? || e.ContextDone?
      ensures Value(state) == Step(cfg, Value(Finished), e)
    {
      if e.ContextDone? {
        return Errored;
      }
      return if cfg.isClient then Finished else Sending;
    }

    /** handshakeFSM12.Run over the events the connection, the timer and the context deliver. */
    method Run(initial: Phase, events: seq<Event>) returns (state: Phase)
      requires IsRun(cfg, Value(initial), events)
      modifies this
      ensures Value(state) == After(cfg, old(Value(initial)), events)
    {
      ghost var m := Value(initial);
      state := initial;
      var i := 0;
      while i < |events|
        invariant 0 <= i <= |events| && Value(state) == After(cfg, m, events[..i])
      {
        RunAt(cfg, m, events, i);
        match state
        case Preparing => state := Prepare(events[i]); i := i + 1;
        case Sending => state := Send(events[i]); i := i + 1;
        case Waiting => state, i := Wait(m, events, i);
        case Finished => state := Finish(events[i]); i := i + 1;
      }
      assert events[..i] == events;
    }
  }
}
