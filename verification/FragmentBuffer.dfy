/** The receiving half of the handshake byte path: dtls/fragment_buffer.go.

    The class `Buffer` is the buffer as the source updates it. `Push` and `Pop` give each operation as a
    function of the state, so that whole runs can be reasoned about. */
module FragmentBuffer {
  import opened Options
  import opened Bytes
  import opened HandshakeWire

  const FRAGMENT_BUFFER_MAX_SIZE := 2000000
  const FRAGMENT_BUFFER_MAX_COUNT := 1000

  datatype Fragment = Fragment(epoch: u16, header: Header, data: seq<byte>)

  datatype Fragments = Fragments(byOffset: map<u32, Fragment>, fragmentsLength: u32, handshakeLength: u32)

  datatype State = State(cache: map<u16, Fragments>, current: u16, size: int, count: int)

  const Empty := State(map[], 0, 0, 0)

  datatype Error = Overflow | BufferTooSmall | UnsupportedProtocolVersion

  datatype PushResult = Pushed(isHandshake: bool, isRetransmit: bool) | PushFailed(error: Error)

  /** The entry a fragment goes to: its message's own, or a new one sized by this fragment's header. */
  function Entry(s: State, h: Header): Fragments {
    if h.messageSequence in s.cache then s.cache[h.messageSequence] else Fragments(map[], 0, h.length)
  }

  function Add(frags: Fragments, f: Fragment): Fragments {
    Fragments(frags.byOffset[f.header.fragmentOffset := f],
              (frags.fragmentsLength + f.header.fragmentLength) % U32_LIMIT, frags.handshakeLength)
  }

  /** One fragment put in the cache; the first fragment seen at an offset wins. */
  function Store(s: State, epoch: u16, h: Header, data: seq<byte>): State {
    var frags := Entry(s, h);
    if h.fragmentOffset in frags.byOffset then s.(cache := s.cache[h.messageSequence := frags])
    else State(s.cache[h.messageSequence := Add(frags, Fragment(epoch, h, data))],
               s.current, s.size + h.fragmentLength, s.count + 1)
  }

  /** The fragments of one handshake record, taken one after another; a malformed one stops the
      record but keeps what was stored before it. */
  function PushBody(s: State, epoch: u16, buf: seq<byte>, retransmit: bool): (State, PushResult)
    decreases |buf|
  {
    if buf == [] then (s, Pushed(true, retransmit))
    else match UnmarshalHeader(buf)
      case None => (s, PushFailed(BufferTooSmall))
      case Some(h) =>
        var end := HEADER_LENGTH + h.fragmentLength;
        if end > |buf| then (s, PushFailed(BufferTooSmall))
        else
          var again := h.fragmentOffset == 0 && h.messageSequence < s.current;
          var next := if h.messageSequence < s.current then s else Store(s, epoch, h, buf[HEADER_LENGTH..end]);
          PushBody(next, epoch, buf[end..], again)
  }

  function Push(s: State, buf: seq<byte>): (State, PushResult) {
    if s.size + |buf| >= FRAGMENT_BUFFER_MAX_SIZE || s.count >= FRAGMENT_BUFFER_MAX_COUNT then
      (s, PushFailed(Overflow))
    else match UnmarshalRecordHeader(buf)
      case RecordErr(e) => (s, PushFailed(if e.RecordTooSmall? then BufferTooSmall else UnsupportedProtocolVersion))
      case RecordOk(rh) =>
        if rh.contentType != CONTENT_TYPE_HANDSHAKE then (s, Pushed(false, false))
        else PushBody(s, rh.epoch, buf[FIXED_HEADER_SIZE..], false)
  }

  /** pop's walk: follow the fragments from offset 0, at most `steps` of them. */
  function Walk(frags: Fragments, steps: nat, target: u32, raw: seq<byte>): Option<seq<byte>> {
    if steps == 0 || target >= frags.handshakeLength then Some(raw)
    else if target in frags.byOffset then
      var f := frags.byOffset[target];
      Walk(frags, steps - 1, (f.header.fragmentOffset + f.header.fragmentLength) % U32_LIMIT, raw + f.data)
    else None
  }

  /** pop dereferences the fragment at offset 0 without looking whether there is one. This is all it
      takes for that to be safe. */
  predicate CanPop(s: State) {
    s.current in s.cache && s.cache[s.current].fragmentsLength == 0 && s.cache[s.current].handshakeLength == 0
    ==> 0 in s.cache[s.current].byOffset
  }

  datatype Popped = Nothing | Message(raw: seq<byte>, epoch: u16)

  /** The reassembled body of the current message, if it is complete. */
  function Complete(s: State): (r: Option<seq<byte>>)
    ensures r.Some? && CanPop(s) ==> s.current in s.cache && 0 in s.cache[s.current].byOffset
  {
    if s.current !in s.cache then None
    else
      var frags := s.cache[s.current];
      if frags.fragmentsLength != frags.handshakeLength then None
      else
        var raw := Walk(frags, |frags.byOffset|, 0, []);
        if raw.Some? && |raw.value| == frags.handshakeLength then raw else None
  }

  /** pop panics exactly on a message it finds complete without a fragment at offset 0. */
  lemma PanicsIff(s: State)
    ensures !CanPop(s) <==> Complete(s).Some? && 0 !in s.cache[s.current].byOffset
  {
  }

  function Pop(s: State): (State, Popped)
    requires CanPop(s)
  {
    match Complete(s)
    case None => (s, Nothing)
    case Some(raw) =>
      var frags := s.cache[s.current];
      var first := frags.byOffset[0];
      var header := first.header.(fragmentOffset := 0, fragmentLength := first.header.length);
      (State(s.cache - {s.current}, Wrap16(s.current + 1),
             s.size - frags.fragmentsLength, s.count - |frags.byOffset|),
       Message(MarshalHeader(header) + raw, first.epoch))
  }

  class Buffer {
    var cache: map<u16, Fragments>
    var currentMessageSequenceNumber: u16
    var totalBufferSize: int
    var totalFragmentCount: int

    ghost function Value(): State
      reads this
    {
      State(cache, currentMessageSequenceNumber, totalBufferSize, totalFragmentCount)
    }

    constructor ()
      ensures Value() == Empty
    {
      cache, currentMessageSequenceNumber, totalBufferSize, totalFragmentCount := map[], 0, 0, 0;
    }

    method PushRecord(buf: seq<byte>) returns (r: PushResult)
      modifies this
      ensures (Value(), r) == Push(old(Value()), buf)
    {
      if totalBufferSize + |buf| >= FRAGMENT_BUFFER_MAX_SIZE || totalFragmentCount >= FRAGMENT_BUFFER_MAX_COUNT {
        return PushFailed(Overflow);
      }
      var rh;
      match UnmarshalRecordHeader(buf) {
        case RecordErr(e) =>
          return PushFailed(if e.RecordTooSmall? then BufferTooSmall else UnsupportedProtocolVersion);
        case RecordOk(h) => rh := h;
      }
      if rh.contentType != CONTENT_TYPE_HANDSHAKE {
        return Pushed(false, false);
      }
      var isRetransmit := false;
      var rest := buf[FIXED_HEADER_SIZE..];
      while rest != []
        invariant PushBody(Value(), rh.epoch, rest, isRetransmit) == Push(old(Value()), buf)
        decreases |rest|
      {
        var header := UnmarshalHeader(rest);
        if header.None? {
          return PushFailed(BufferTooSmall);
        }
        var h := header.value;
        isRetransmit := h.fragmentOffset == 0 && h.messageSequence < currentMessageSequenceNumber;
        var end := HEADER_LENGTH + h.fragmentLength;
        if end > |rest| {
          return PushFailed(BufferTooSmall);
        }
        if h.messageSequence >= currentMessageSequenceNumber {
          StoreFragment(rh.epoch, h, rest[HEADER_LENGTH..end]);
        }
        rest := rest[end..];
      }
      return Pushed(true, isRetransmit);
    }

    /** The body of push's loop for a fragment that is not a retransmission. */
    method StoreFragment(epoch: u16, h: Header, data: seq<byte>)
      modifies this
      ensures Value() == Store(old(Value()), epoch, h, data)
    {
      if h.messageSequence !in cache {
        cache := cache[h.messageSequence := Fragments(map[], 0, h.length)];
      }
      var frags := cache[h.messageSequence];
      if h.fragmentOffset !in frags.byOffset {
        frags := frags.(byOffset := frags.byOffset[h.fragmentOffset := Fragment(epoch, h, data)],
                        fragmentsLength := (frags.fragmentsLength + h.fragmentLength) % U32_LIMIT);
        cache := cache[h.messageSequence := frags];
        totalBufferSize := totalBufferSize + h.fragmentLength;
        totalFragmentCount := totalFragmentCount + 1;
      }
      assert cache == Store(old(Value()), epoch, h, data).cache;
    }

    /** pop. A panic comes before anything is changed. */
    method PopMessage() returns (panics: bool, r: Popped)
      modifies this
      ensures panics <==> !CanPop(old(Value()))
      ensures if panics then Value() == old(Value()) && r == Nothing else (Value(), r) == Pop(old(Value()))
    {
      panics, r := false, Nothing;
      if currentMessageSequenceNumber !in cache {
        return;
      }
      var frags := cache[currentMessageSequenceNumber];
      if frags.fragmentsLength != frags.handshakeLength {
        return;
      }
      var rawMessage: seq<byte> := [];
      var targetOffset: u32 := 0;
      var i := 0;
      while i < |frags.byOffset| && targetOffset < frags.handshakeLength
        invariant 0 <= i <= |frags.byOffset|
        invariant Walk(frags, |frags.byOffset| - i, targetOffset, rawMessage) == Walk(frags, |frags.byOffset|, 0, [])
      {
        if targetOffset !in frags.byOffset {
          return;
        }
        var frag := frags.byOffset[targetOffset];
        rawMessage := rawMessage + frag.data;
        targetOffset := (frag.header.fragmentOffset + frag.header.fragmentLength) % U32_LIMIT;
        i := i + 1;
      }
      if frags.handshakeLength != |rawMessage| {
        return;
      }
      assert Complete(Value()) == Some(rawMessage);
      if 0 !in frags.byOffset {
        return true, Nothing;
      }
      var first := frags.byOffset[0];
      var firstHeader := first.header.(fragmentOffset := 0, fragmentLength := first.header.length);
      totalBufferSize := totalBufferSize - frags.fragmentsLength;
      totalFragmentCount := totalFragmentCount - |frags.byOffset|;
      cache := cache - {currentMessageSequenceNumber};
      currentMessageSequenceNumber := Wrap16(currentMessageSequenceNumber + 1);
      r := Message(MarshalHeader(firstHeader) + rawMessage, first.epoch);
    }
  }
}
