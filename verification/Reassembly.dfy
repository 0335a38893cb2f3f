/** The handshake byte path across a network that may drop, duplicate, reorder and regroup fragments:
    sender's fragments in, sender's unfragmented messages out. */
module Reassembly {
  import opened Options
  import opened Bytes
  import opened HandshakeWire
  import opened Fragmenter
  import opened FragmentBuffer
  import opened FragmentAccounting

  /** A handshake message as its sender keeps it; its message sequence number is its place in the list. */
  datatype Sent = Sent(typ: byte, epoch: u16, body: seq<byte>)

  /** Bytes `off..off + len` of the body of message `i`, travelling as one fragment. */
  datatype Slice = Slice(i: nat, off: nat, len: nat)

  /** One record reaching the receiver (`seqAndLen` is the rest of its header), or one call of pop. */
  datatype NetEvent = Record(epoch: u16, seqAndLen: seq<byte>, slices: seq<Slice>) | TakeMessage

  predicate ValidMessages(msgs: seq<Sent>) {
    |msgs| < 0x1_0000 && forall i :: 0 <= i < |msgs| ==> |msgs[i].body| < U24_LIMIT
  }

  predicate ValidSlice(msgs: seq<Sent>, sl: Slice) {
    sl.i < |msgs| && sl.off + sl.len <= |msgs[sl.i].body|
  }

  predicate ValidEvent(msgs: seq<Sent>, e: NetEvent) {
    e.Record? ==> |e.seqAndLen| == 8 &&
                  forall k :: 0 <= k < |e.slices| ==>
                    ValidSlice(msgs, e.slices[k]) && msgs[e.slices[k].i].epoch == e.epoch
  }

  predicate ValidEvents(msgs: seq<Sent>, events: seq<NetEvent>) {
    forall k :: 0 <= k < |events| ==> ValidEvent(msgs, events[k])
  }

  function SliceHeader(msgs: seq<Sent>, sl: Slice): Header
    requires ValidMessages(msgs) && ValidSlice(msgs, sl)
  {
    Header(msgs[sl.i].typ, |msgs[sl.i].body|, sl.i, sl.off, sl.len)
  }

  function SliceData(msgs: seq<Sent>, sl: Slice): seq<byte>
    requires ValidSlice(msgs, sl)
  {
    msgs[sl.i].body[sl.off..sl.off + sl.len]
  }

  function SlicesBytes(msgs: seq<Sent>, slices: seq<Slice>): seq<byte>
    requires ValidMessages(msgs) && forall k :: 0 <= k < |slices| ==> ValidSlice(msgs, slices[k])
  {
    if slices == [] then []
    else FragmentBytes(SliceHeader(msgs, slices[0]), SliceData(msgs, slices[0])) + SlicesBytes(msgs, slices[1..])
  }

  function RecordBytes(msgs: seq<Sent>, e: NetEvent): seq<byte>
    requires ValidMessages(msgs) && ValidEvent(msgs, e) && e.Record?
  {
    [CONTENT_TYPE_HANDSHAKE, 0xfe, 0xfd] + PutU16(e.epoch) + e.seqAndLen + SlicesBytes(msgs, e.slices)
  }

  function Wire(msgs: seq<Sent>, e: NetEvent): Event
    requires ValidMessages(msgs) && ValidEvent(msgs, e)
  {
    if e.Record? then Arrive(RecordBytes(msgs, e)) else Take
  }

  /** The receiver after a list of network events. */
  function Receive(msgs: seq<Sent>, events: seq<NetEvent>): Run
    requires ValidMessages(msgs) && ValidEvents(msgs, events)
  {
    if events == [] then Run(Empty, [])
    else Step(Receive(msgs, events[..|events| - 1]), Wire(msgs, events[|events| - 1]))
  }

  /** What the sender itself put in its cache for message `i`. */
  function Expected(msgs: seq<Sent>, i: nat): Popped
    requires i < |msgs| < 0x1_0000
  {
    Message(MarshalHandshake(msgs[i].typ, i, msgs[i].body), msgs[i].epoch)
  }

  /** A stored fragment is a slice of the message it is filed under. */
  ghost predicate IsSlice(msgs: seq<Sent>, i: nat, o: int, f: Fragment)
    requires ValidMessages(msgs) && i < |msgs|
  {
    0 <= o && o + |f.data| <= |msgs[i].body| &&
    f == Fragment(msgs[i].epoch, SliceHeader(msgs, Slice(i, o, |f.data|)), SliceData(msgs, Slice(i, o, |f.data|)))
  }

  ghost predicate SoundEntry(msgs: seq<Sent>, i: nat, frags: Fragments)
    requires ValidMessages(msgs) && i < |msgs|
  {
    && frags.handshakeLength == |msgs[i].body|
    && frags.byOffset.Keys != {}
    && forall o :: o in frags.byOffset ==> IsSlice(msgs, i, o, frags.byOffset[o])
  }

  ghost predicate Sound(msgs: seq<Sent>, s: State)
    requires ValidMessages(msgs)
  {
    && s.current <= |msgs|
    && forall i :: i in s.cache ==> s.current <= i < |msgs| && SoundEntry(msgs, i, s.cache[i])
  }

  /** The effect of a record's fragments on the buffer, without the bytes. */
  function StoreSlices(msgs: seq<Sent>, s: State, epoch: u16, slices: seq<Slice>): State
    requires ValidMessages(msgs) && forall k :: 0 <= k < |slices| ==> ValidSlice(msgs, slices[k])
    decreases |slices|
  {
    if slices == [] then s
    else
      var sl := slices[0];
      var next := if sl.i < s.current then s else Store(s, epoch, SliceHeader(msgs, sl), SliceData(msgs, sl));
      StoreSlices(msgs, next, epoch, slices[1..])
  }

  lemma FragmentSplits(h: Header, data: seq<byte>, rest: seq<byte>)
    ensures var buf := FragmentBytes(h, data) + rest;
            var end := HEADER_LENGTH + |data|;
            buf == MarshalHeader(h) + (data + rest) && buf[HEADER_LENGTH..end] == data && buf[end..] == rest
  {
  }

  lemma PushOneSlice(msgs: seq<Sent>, s: State, epoch: u16, sl: Slice, rest: seq<byte>, retransmit: bool)
    requires ValidMessages(msgs) && ValidSlice(msgs, sl)
    ensures var h, data := SliceHeader(msgs, sl), SliceData(msgs, sl);
            PushBody(s, epoch, FragmentBytes(h, data) + rest, retransmit) ==
            PushBody(if sl.i < s.current then s else Store(s, epoch, h, data), epoch, rest,
                     sl.off == 0 && sl.i < s.current)
  {
    var h, data := SliceHeader(msgs, sl), SliceData(msgs, sl);
    FragmentSplits(h, data, rest);
    HeaderRoundTrip(h, data + rest);
  }

  lemma {:induction false} PushBodySlices(msgs: seq<Sent>, s: State, epoch: u16, slices: seq<Slice>, retransmit: bool)
    requires ValidMessages(msgs) && forall k :: 0 <= k < |slices| ==> ValidSlice(msgs, slices[k])
    ensures PushBody(s, epoch, SlicesBytes(msgs, slices), retransmit).0 == StoreSlices(msgs, s, epoch, slices)
    ensures PushBody(s, epoch, SlicesBytes(msgs, slices), retransmit).1.Pushed?
    decreases |slices|
  {
    if slices != [] {
      var sl := slices[0];
      PushOneSlice(msgs, s, epoch, sl, SlicesBytes(msgs, slices[1..]), retransmit);
      var next := if sl.i < s.current then s else Store(s, epoch, SliceHeader(msgs, sl), SliceData(msgs, sl));
      PushBodySlices(msgs, next, epoch, slices[1..], sl.off == 0 && sl.i < s.current);
    }
  }

  /** A well-formed record is either refused whole because the buffer is full, or stored whole. */
  lemma PushRecord(msgs: seq<Sent>, s: State, e: NetEvent)
    requires ValidMessages(msgs) && ValidEvent(msgs, e) && e.Record?
    ensures var (s', r) := Push(s, RecordBytes(msgs, e));
            if s.size + |RecordBytes(msgs, e)| >= FRAGMENT_BUFFER_MAX_SIZE || s.count >= FRAGMENT_BUFFER_MAX_COUNT
            then r == PushFailed(Overflow) && s' == s
            else r.Pushed? && s' == StoreSlices(msgs, s, e.epoch, e.slices)
  {
    var buf := RecordBytes(msgs, e);
    assert buf[FIXED_HEADER_SIZE..] == SlicesBytes(msgs, e.slices);
    assert GetU16(buf, 3) == e.epoch;
    PushBodySlices(msgs, s, e.epoch, e.slices, false);
  }

  lemma StoreSound(msgs: seq<Sent>, s: State, sl: Slice)
    requires ValidMessages(msgs) && ValidSlice(msgs, sl) && Sound(msgs, s) && s.current <= sl.i
    ensures Sound(msgs, Store(s, msgs[sl.i].epoch, SliceHeader(msgs, sl), SliceData(msgs, sl)))
  {
    assert |SliceData(msgs, sl)| == sl.len;
  }

  lemma {:induction false} StoreSlicesSound(msgs: seq<Sent>, s: State, epoch: u16, slices: seq<Slice>)
    requires ValidMessages(msgs) && Sound(msgs, s)
    requires forall k :: 0 <= k < |slices| ==> ValidSlice(msgs, slices[k]) && msgs[slices[k].i].epoch == epoch
    ensures Sound(msgs, StoreSlices(msgs, s, epoch, slices))
    ensures StoreSlices(msgs, s, epoch, slices).current == s.current
    decreases |slices|
  {
    if slices != [] {
      var sl := slices[0];
      if s.current <= sl.i { StoreSound(msgs, s, sl); }
      var next := if sl.i < s.current then s else Store(s, epoch, SliceHeader(msgs, sl), SliceData(msgs, sl));
      StoreSlicesSound(msgs, next, epoch, slices[1..]);
    }
  }

  /** However the stored slices overlap, the walk only ever gathers a prefix of the body. */
  lemma {:induction false} WalkGathersPrefix(msgs: seq<Sent>, i: nat, frags: Fragments, steps: nat, target: u32)
    requires ValidMessages(msgs) && i < |msgs| && SoundEntry(msgs, i, frags) && target <= |msgs[i].body|
    ensures var r := Walk(frags, steps, target, msgs[i].body[..target]);
            r.Some? ==> |r.value| <= |msgs[i].body| && r.value == msgs[i].body[..|r.value|]
    decreases steps
  {
    if steps > 0 && target < frags.handshakeLength && target in frags.byOffset {
      var f := frags.byOffset[target];
      assert IsSlice(msgs, i, target, f);
      var target' := target + |f.data|;
      assert msgs[i].body[..target] + f.data == msgs[i].body[..target'];
      WalkGathersPrefix(msgs, i, frags, steps - 1, target');
    }
  }

  lemma SoundCanPop(msgs: seq<Sent>, s: State)
    requires ValidMessages(msgs) && Sound(msgs, s)
    ensures CanPop(s)
  {
    if s.current in s.cache {
      var frags := s.cache[s.current];
      var o :| o in frags.byOffset.Keys;
      assert IsSlice(msgs, s.current, o, frags.byOffset[o]);
    }
  }

  lemma CompleteIsBody(msgs: seq<Sent>, s: State)
    requires ValidMessages(msgs) && Sound(msgs, s)
    ensures Complete(s).Some? ==> s.current < |msgs| && Complete(s).value == msgs[s.current].body
  {
    if s.current in s.cache {
      var i: nat := s.current;
      var frags := s.cache[s.current];
      assert msgs[i].body[..0] == [];
      WalkGathersPrefix(msgs, i, frags, |frags.byOffset|, 0);
    }
  }

  /** The header pop rebuilds from the first fragment is the header of the unfragmented message. */
  lemma RebuiltHeader(msgs: seq<Sent>, i: nat, f: Fragment)
    requires ValidMessages(msgs) && i < |msgs| && IsSlice(msgs, i, 0, f)
    ensures f.header.(fragmentOffset := 0, fragmentLength := f.header.length) ==
            WholeHeader(msgs[i].typ, i, msgs[i].body)
  {
  }

  lemma PopDelivers(msgs: seq<Sent>, s: State)
    requires ValidMessages(msgs) && Sound(msgs, s) && CanPop(s) && Complete(s).Some?
    ensures s.current < |msgs| && Pop(s).1 == Expected(msgs, s.current)
  {
    CompleteIsBody(msgs, s);
    assert IsSlice(msgs, s.current, 0, s.cache[s.current].byOffset[0]);
    RebuiltHeader(msgs, s.current, s.cache[s.current].byOffset[0]);
  }

  lemma PopAdvances(s: State)
    requires CanPop(s) && Complete(s).Some? && s.current < 0xffff
    ensures Pop(s).0.current == s.current + 1 && Pop(s).0.cache == s.cache - {s.current} && Pop(s).1.Message?
  {
  }

  lemma AdvancedSound(msgs: seq<Sent>, s: State, s': State)
    requires ValidMessages(msgs) && Sound(msgs, s) && s.current < |msgs|
    requires s'.current == s.current + 1 && s'.cache == s.cache - {s.current}
    ensures Sound(msgs, s')
  {
  }

  /** Whatever mixture of slices is stored, pop is safe to call and delivers only the sender's own bytes. */
  lemma PopSound(msgs: seq<Sent>, s: State)
    requires ValidMessages(msgs) && Sound(msgs, s)
    ensures CanPop(s)
    ensures Sound(msgs, Pop(s).0)
    ensures Pop(s).1.Message? ==> s.current < |msgs| && Pop(s).1 == Expected(msgs, s.current) &&
                                  Pop(s).0.current == s.current + 1
    ensures Pop(s).1.Nothing? ==> Pop(s).0 == s
  {
    SoundCanPop(msgs, s);
    if Complete(s).Some? {
      PopDelivers(msgs, s);
      PopAdvances(s);
      AdvancedSound(msgs, s, Pop(s).0);
    }
  }

  ghost predicate SoundRun(msgs: seq<Sent>, r: Run)
    requires ValidMessages(msgs)
  {
    r.Run? && Sound(msgs, r.s) && r.s.current == |r.delivered| &&
    forall k :: 0 <= k < |r.delivered| ==> r.delivered[k] == Expected(msgs, k)
  }

  lemma StepSound(msgs: seq<Sent>, r: Run, e: NetEvent)
    requires ValidMessages(msgs) && ValidEvent(msgs, e) && SoundRun(msgs, r)
    ensures SoundRun(msgs, Step(r, Wire(msgs, e)))
  {
    if e.Record? {
      PushRecord(msgs, r.s, e);
      StoreSlicesSound(msgs, r.s, e.epoch, e.slices);
    } else {
      PopSound(msgs, r.s);
    }
  }

  /** Safety over every network: pop never dereferences a missing fragment, and what has been delivered
      is always exactly the first messages of the sender, in order, byte for byte. This holds for any
      mixture of splits of the same message. */
  lemma {:induction false} DeliversSendersBytes(msgs: seq<Sent>, events: seq<NetEvent>)
    requires ValidMessages(msgs) && ValidEvents(msgs, events)
    ensures SoundRun(msgs, Receive(msgs, events))
  {
    if events != [] {
      var before := events[..|events| - 1];
      DeliversSendersBytes(msgs, before);
      StepSound(msgs, Receive(msgs, before), events[|events| - 1]);
    }
  }
}
