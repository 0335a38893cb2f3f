/** What every run of push and pop keeps, for arbitrary input bytes: the counters are the sums over the
    cache, the size bound holds so no uint32 sum wraps, and messages come out in sequence order. */
module FragmentAccounting {
  import opened Options
  import opened Bytes
  import opened HandshakeWire
  import opened FragmentBuffer

  /** The sum of `size` over a map's values. */
  ghost function Sum<K, V>(m: map<K, V>, size: V -> nat): nat
    decreases |m|
  {
    if m.Keys == {} then 0
    else
      var k :| k in m.Keys;
      size(m[k]) + Sum(m - {k}, size)
  }

  lemma {:induction false} SumSplit<K, V>(m: map<K, V>, size: V -> nat, k: K)
    requires k in m
    ensures Sum(m, size) == size(m[k]) + Sum(m - {k}, size)
    decreases |m|
  {
    var j :| j in m.Keys && Sum(m, size) == size(m[j]) + Sum(m - {j}, size);
    if j != k {
      SumSplit(m - {j}, size, k);
      SumSplit(m - {k}, size, j);
      assert m - {j} - {k} == m - {k} - {j};
    }
  }

  lemma SumUpdate<K, V>(m: map<K, V>, size: V -> nat, k: K, v: V)
    ensures Sum(m[k := v], size) == size(v) + if k in m then Sum(m, size) - size(m[k]) else Sum(m, size)
  {
    SumSplit(m[k := v], size, k);
    if k in m {
      SumSplit(m, size, k);
      assert m[k := v] - {k} == m - {k};
    } else {
      assert m[k := v] - {k} == m;
    }
  }

  function DataLength(f: Fragment): nat { |f.data| }
  function HeldLength(frags: Fragments): nat { frags.fragmentsLength }
  function HeldCount(frags: Fragments): nat { |frags.byOffset| }

  /** A stored fragment is filed under its own offset and its own message number. */
  ghost predicate Filed(frags: Fragments, i: u16) {
    forall o :: o in frags.byOffset ==>
      var f := frags.byOffset[o];
      f.header.fragmentOffset == o < U24_LIMIT && f.header.fragmentLength == |f.data| < U24_LIMIT &&
      f.header.length < U24_LIMIT && f.header.messageSequence == i
  }

  /** The books of one message. */
  ghost predicate Booked(frags: Fragments, i: u16) {
    Filed(frags, i) && frags.fragmentsLength == Sum(frags.byOffset, DataLength)
  }

  ghost predicate Accounted(s: State) {
    && (forall i :: i in s.cache ==> Booked(s.cache[i], i))
    && s.size == Sum(s.cache, HeldLength)
    && s.count == Sum(s.cache, HeldCount)
    && s.size < FRAGMENT_BUFFER_MAX_SIZE
  }

  ghost predicate Sized(h: Header, data: seq<byte>) {
    h.fragmentOffset < U24_LIMIT && h.length < U24_LIMIT && h.fragmentLength == |data| < U24_LIMIT
  }

  lemma EntryBooked(s: State, h: Header)
    requires Accounted(s)
    ensures Booked(Entry(s, h), h.messageSequence) && Entry(s, h).fragmentsLength <= s.size
  {
    if h.messageSequence in s.cache { SumSplit(s.cache, HeldLength, h.messageSequence); }
  }

  lemma AddedBooked(frags: Fragments, f: Fragment)
    requires Booked(frags, f.header.messageSequence) && Sized(f.header, f.data)
    requires f.header.fragmentOffset !in frags.byOffset && frags.fragmentsLength + |f.data| < U32_LIMIT
    ensures Booked(Add(frags, f), f.header.messageSequence)
  {
    SumUpdate(frags.byOffset, DataLength, f.header.fragmentOffset, f);
  }

  /** Replacing one message's entry by one holding `n` more bytes in one more fragment. */
  lemma EntryReplaced(s: State, h: Header, frags: Fragments, n: nat)
    requires Accounted(s) && Booked(frags, h.messageSequence) && s.size + n < FRAGMENT_BUFFER_MAX_SIZE
    requires frags.fragmentsLength == Entry(s, h).fragmentsLength + n && |frags.byOffset| == |Entry(s, h).byOffset| + 1
    ensures Accounted(State(s.cache[h.messageSequence := frags], s.current, s.size + n, s.count + 1))
  {
    SumUpdate(s.cache, HeldLength, h.messageSequence, frags);
    SumUpdate(s.cache, HeldCount, h.messageSequence, frags);
  }

  lemma StoreAccounted(s: State, epoch: u16, h: Header, data: seq<byte>)
    requires Accounted(s) && Sized(h, data) && s.size + |data| < FRAGMENT_BUFFER_MAX_SIZE
    ensures Accounted(Store(s, epoch, h, data))
    ensures Store(s, epoch, h, data).size <= s.size + |data|
    ensures Store(s, epoch, h, data).current == s.current
  {
    var i := h.messageSequence;
    var frags := Entry(s, h);
    EntryBooked(s, h);
    if h.fragmentOffset in frags.byOffset {
      assert s.cache[i := frags] == s.cache;
      assert Store(s, epoch, h, data) == s;
    } else {
      var f := Fragment(epoch, h, data);
      AddedBooked(frags, f);
      assert Add(frags, f).fragmentsLength == frags.fragmentsLength + |data|;
      EntryReplaced(s, h, Add(frags, f), |data|);
    }
  }

  /** One handshake message off the front of a record's body. */
  lemma PieceAccounted(s: State, epoch: u16, buf: seq<byte>, h: Header, end: nat)
    requires Accounted(s) && s.size + |buf| < FRAGMENT_BUFFER_MAX_SIZE
    requires UnmarshalHeader(buf) == Some(h) && end == HEADER_LENGTH + h.fragmentLength <= |buf|
    ensures var next := if h.messageSequence < s.current then s else Store(s, epoch, h, buf[HEADER_LENGTH..end]);
            Accounted(next) && next.current == s.current && next.size + |buf[end..]| < FRAGMENT_BUFFER_MAX_SIZE
  {
    if h.messageSequence >= s.current { StoreAccounted(s, epoch, h, buf[HEADER_LENGTH..end]); }
  }

  lemma {:induction false} PushBodyAccounted(s: State, epoch: u16, buf: seq<byte>, retransmit: bool)
    requires Accounted(s) && s.size + |buf| < FRAGMENT_BUFFER_MAX_SIZE
    ensures Accounted(PushBody(s, epoch, buf, retransmit).0)
    ensures PushBody(s, epoch, buf, retransmit).0.current == s.current
    decreases |buf|
  {
    var header := UnmarshalHeader(buf);
    if buf != [] && header.Some? {
      var h := header.value;
      var end := HEADER_LENGTH + h.fragmentLength;
      if end <= |buf| {
        PieceAccounted(s, epoch, buf, h, end);
        var next := if h.messageSequence < s.current then s else Store(s, epoch, h, buf[HEADER_LENGTH..end]);
        PushBodyAccounted(next, epoch, buf[end..], h.fragmentOffset == 0 && h.messageSequence < s.current);
      }
    }
  }

  /** push keeps the books whatever bytes it is given and wherever it fails. */
  lemma PushAccounted(s: State, buf: seq<byte>)
    requires Accounted(s)
    ensures Accounted(Push(s, buf).0) && Push(s, buf).0.current == s.current
  {
    if s.size + |buf| < FRAGMENT_BUFFER_MAX_SIZE {
      match UnmarshalRecordHeader(buf)
      case RecordErr(_) =>
      case RecordOk(rh) => PushBodyAccounted(s, rh.epoch, buf[FIXED_HEADER_SIZE..], false);
    }
  }

  /** pop keeps the books, and what it delivers carries the number that was current. */
  lemma PopAccounted(s: State)
    requires Accounted(s) && CanPop(s)
    ensures Accounted(Pop(s).0)
    ensures Pop(s).1.Nothing? ==> Pop(s).0 == s
    ensures Pop(s).1.Message? ==>
              && Pop(s).0.current == Wrap16(s.current + 1)
              && UnmarshalHeader(Pop(s).1.raw).Some?
              && UnmarshalHeader(Pop(s).1.raw).value.messageSequence == s.current
  {
    if Complete(s).Some? {
      SumSplit(s.cache, HeldLength, s.current);
      SumSplit(s.cache, HeldCount, s.current);
      var h := s.cache[s.current].byOffset[0].header;
      HeaderRoundTrip(h.(fragmentOffset := 0, fragmentLength := h.length), Complete(s).value);
    }
  }

  datatype Event = Arrive(buf: seq<byte>) | Take

  /** A run that has not hit pop's missing-fragment dereference. */
  datatype Run = Run(s: State, delivered: seq<Popped>) | Panicked

  function Step(r: Run, e: Event): Run {
    match r
    case Panicked => Panicked
    case Run(s, out) =>
      match e
      case Arrive(buf) => Run(Push(s, buf).0, out)
      case Take =>
        if !CanPop(s) then Panicked
        else if Pop(s).1.Nothing? then r else Run(Pop(s).0, out + [Pop(s).1])
  }

  function RunAll(events: seq<Event>): Run {
    if events == [] then Run(Empty, []) else Step(RunAll(events[..|events| - 1]), events[|events| - 1])
  }

  ghost predicate Numbered(out: seq<Popped>) {
    forall k :: 0 <= k < |out| ==>
      out[k].Message? && UnmarshalHeader(out[k].raw).Some? &&
      UnmarshalHeader(out[k].raw).value.messageSequence == Wrap16(k)
  }

  ghost predicate RunAccounted(r: Run) {
    r.Run? ==> Accounted(r.s) && Numbered(r.delivered) && r.s.current == Wrap16(|r.delivered|)
  }

  lemma NumberedSnoc(out: seq<Popped>, p: Popped)
    requires Numbered(out) && p.Message? && UnmarshalHeader(p.raw).Some?
    requires UnmarshalHeader(p.raw).value.messageSequence == Wrap16(|out|)
    ensures Numbered(out + [p])
  {
  }

  lemma TakeAccounted(r: Run)
    requires r.Run? && RunAccounted(r) && CanPop(r.s)
    ensures RunAccounted(Step(r, Take))
  {
    PopAccounted(r.s);
    if Pop(r.s).1.Message? {
      NumberedSnoc(r.delivered, Pop(r.s).1);
      Wrap16Next(|r.delivered|);
    }
  }

  lemma StepAccounted(r: Run, e: Event)
    requires RunAccounted(r)
    ensures RunAccounted(Step(r, e))
  {
    if r.Run? {
      match e
      case Arrive(buf) => PushAccounted(r.s, buf);
      case Take => if CanPop(r.s) { TakeAccounted(r); }
    }
  }

  /** The message pop would take is complete but has no fragment at offset 0. */
  ghost predicate WouldPanic(r: Run) {
    r.Run? && Complete(r.s).Some? && 0 !in r.s.cache[r.s.current].byOffset
  }

  /** Some pop of the run meets such a message. */
  ghost predicate MeetsHollow(events: seq<Event>) {
    events != [] &&
    var n := |events| - 1;
    MeetsHollow(events[..n]) || (events[n].Take? && WouldPanic(RunAll(events[..n])))
  }

  lemma StepPanics(r: Run, e: Event)
    ensures Step(r, e).Panicked? <==> r.Panicked? || (e.Take? && WouldPanic(r))
  {
    if r.Run? { PanicsIff(r.s); }
  }

  /** Every run: until pop panics, the counters are exact, the size stays under the limit, and the k-th delivery is
      message k modulo 2^16, so the first 65536 deliveries are messages 0, 1, 2, ... each exactly once. The run
      panics exactly when one of its pops meets a complete message without a fragment at offset 0. */
  lemma {:induction false} EveryRunAccounted(events: seq<Event>)
    ensures RunAccounted(RunAll(events))
    ensures RunAll(events).Panicked? <==> MeetsHollow(events)
  {
    if events != [] {
      var r := RunAll(events[..|events| - 1]);
      EveryRunAccounted(events[..|events| - 1]);
      StepAccounted(r, events[|events| - 1]);
      StepPanics(r, events[|events| - 1]);
    }
  }

  /** In an accounted state no uint32 length sum can have wrapped. */
  lemma NoWrap(s: State, i: u16)
    requires Accounted(s) && i in s.cache
    ensures s.cache[i].fragmentsLength <= s.size < FRAGMENT_BUFFER_MAX_SIZE
  {
    SumSplit(s.cache, HeldLength, i);
  }
}
