/** When pop is safe (dtls/fragment_buffer.go). It dereferences the fragment at offset 0 of a complete message without
    looking whether there is one, and push does not keep such a message out. */
module PopSafety {
  import opened Options
  import opened Bytes
  import opened HandshakeWire
  import opened FragmentBuffer
  import opened FragmentAccounting

  /** The messages that pop would find complete without a fragment at offset 0. */
  predicate Hollow(frags: Fragments) {
    frags.fragmentsLength == 0 && frags.handshakeLength == 0 && 0 !in frags.byOffset
  }

  ghost predicate NoneHollow(s: State) {
    forall i :: i in s.cache ==> !Hollow(s.cache[i])
  }

  /** An empty fragment of an empty message that claims to lie elsewhere than at offset 0. */
  predicate Misplaced(h: Header) {
    h.length == 0 && h.fragmentLength == 0 && h.fragmentOffset != 0
  }

  /** Storing a fragment keeps every message safe to pop exactly when it is not a misplaced one that opens a new
      entry. */
  lemma StoreSafeIff(s: State, epoch: u16, h: Header, data: seq<byte>)
    requires Accounted(s) && NoneHollow(s) && Sized(h, data) && s.size + |data| < FRAGMENT_BUFFER_MAX_SIZE
    ensures NoneHollow(Store(s, epoch, h, data)) <==> !(Misplaced(h) && h.messageSequence !in s.cache)
  {
    EntryBooked(s, h);
    var s' := Store(s, epoch, h, data);
    assert h.messageSequence in s'.cache;
  }

  /** No fragment in the body of a record is misplaced, as far as the body can be parsed. */
  predicate WellPlaced(buf: seq<byte>)
    decreases |buf|
  {
    match UnmarshalHeader(buf)
    case None => true
    case Some(h) =>
      var end := HEADER_LENGTH + h.fragmentLength;
      end > |buf| || (!Misplaced(h) && WellPlaced(buf[end..]))
  }

  lemma {:induction false} PushBodySafe(s: State, epoch: u16, buf: seq<byte>, retransmit: bool)
    requires Accounted(s) && NoneHollow(s) && WellPlaced(buf) && s.size + |buf| < FRAGMENT_BUFFER_MAX_SIZE
    ensures NoneHollow(PushBody(s, epoch, buf, retransmit).0)
    decreases |buf|
  {
    var header := UnmarshalHeader(buf);
    if buf != [] && header.Some? {
      var h := header.value;
      var end := HEADER_LENGTH + h.fragmentLength;
      if end <= |buf| {
        PieceAccounted(s, epoch, buf, h, end);
        if h.messageSequence >= s.current { StoreSafeIff(s, epoch, h, buf[HEADER_LENGTH..end]); }
        var next := if h.messageSequence < s.current then s else Store(s, epoch, h, buf[HEADER_LENGTH..end]);
        PushBodySafe(next, epoch, buf[end..], h.fragmentOffset == 0 && h.messageSequence < s.current);
      }
    }
  }

  /** What a receiver could look at before it pushes a record. */
  predicate WellPlacedRecord(buf: seq<byte>) {
    |buf| >= FIXED_HEADER_SIZE && buf[0] == CONTENT_TYPE_HANDSHAKE ==> WellPlaced(buf[FIXED_HEADER_SIZE..])
  }

  lemma PushSafe(s: State, buf: seq<byte>)
    requires Accounted(s) && NoneHollow(s) && WellPlacedRecord(buf)
    ensures NoneHollow(Push(s, buf).0)
  {
    if s.size + |buf| < FRAGMENT_BUFFER_MAX_SIZE {
      match UnmarshalRecordHeader(buf)
      case RecordErr(_) =>
      case RecordOk(rh) =>
        if rh.contentType == CONTENT_TYPE_HANDSHAKE {
          PushBodySafe(s, rh.epoch, buf[FIXED_HEADER_SIZE..], false);
        }
    }
  }

  predicate AllWellPlaced(events: seq<Event>) {
    forall k :: 0 <= k < |events| && events[k].Arrive? ==> WellPlacedRecord(events[k].buf)
  }

  /** Over every run of arbitrary bytes whose records hold no misplaced fragment, pop never panics. */
  lemma {:induction false} WellPlacedRunsAreSafe(events: seq<Event>)
    requires AllWellPlaced(events)
    ensures RunAll(events).Run? && NoneHollow(RunAll(events).s)
  {
    if events != [] {
      var before := events[..|events| - 1];
      WellPlacedRunsAreSafe(before);
      EveryRunAccounted(before);
      match events[|events| - 1]
      case Arrive(buf) => PushSafe(RunAll(before).s, buf);
      case Take =>
    }
  }

  /** A record that holds one fragment. */
  function OneFragment(epoch: u16, rest: seq<byte>, h: Header): seq<byte> {
    [CONTENT_TYPE_HANDSHAKE, 0xfe, 0xfd] + PutU16(epoch) + rest + MarshalHeader(h)
  }

  lemma EmptyFragmentStored(s: State, epoch: u16, h: Header)
    requires h.length == h.fragmentLength == 0 && h.fragmentOffset < U24_LIMIT && s.current <= h.messageSequence
    ensures PushBody(s, epoch, MarshalHeader(h), false).0 == Store(s, epoch, h, [])
  {
    var body := MarshalHeader(h);
    HeaderRoundTrip(h, []);
    assert body + [] == body;
    assert body[HEADER_LENGTH..HEADER_LENGTH] == [] && body[HEADER_LENGTH..] == [];
    assert PushBody(Store(s, epoch, h, []), epoch, [], false).0 == Store(s, epoch, h, []);
  }

  lemma OneFragmentPushed(s: State, epoch: u16, rest: seq<byte>, h: Header)
    requires |rest| == 8 && s.size + 25 < FRAGMENT_BUFFER_MAX_SIZE && s.count < FRAGMENT_BUFFER_MAX_COUNT
    ensures Push(s, OneFragment(epoch, rest, h)) == PushBody(s, epoch, MarshalHeader(h), false)
  {
    var buf := OneFragment(epoch, rest, h);
    assert buf[FIXED_HEADER_SIZE..] == MarshalHeader(h);
    assert buf[3..5] == PutU16(epoch);
    U16RoundTrip(epoch, buf, 3);
  }

  lemma TwoEvents(a: Event, b: Event)
    ensures RunAll([a, b]) == Step(Step(Run(Empty, []), a), b)
  {
    var one, two := [a], [a, b];
    assert one[..|one| - 1] == [] && two[..|two| - 1] == one;
    assert RunAll(one) == Step(RunAll([]), a);
  }

  /** Every misplaced fragment of message 0, alone in a record and followed by a pop, makes pop panic. */
  lemma MisplacedPanics(typ: byte, epoch: u16, rest: seq<byte>, offset: u32)
    requires |rest| == 8 && 0 < offset < U24_LIMIT
    ensures RunAll([Arrive(OneFragment(epoch, rest, Header(typ, 0, 0, offset, 0))), Take]) == Panicked
  {
    var h := Header(typ, 0, 0, offset, 0);
    EmptyFragmentStored(Empty, epoch, h);
    OneFragmentPushed(Empty, epoch, rest, h);
    TwoEvents(Arrive(OneFragment(epoch, rest, h)), Take);
    assert !CanPop(Store(Empty, epoch, h, [])) by {
      assert Store(Empty, epoch, h, []).cache[0].byOffset.Keys == {offset};
    }
  }
}
