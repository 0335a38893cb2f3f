/** When reassembly delivers: over every network and every split of every message, pop yields the next
    message exactly when all of its pieces have been accepted. */
module Delivery {
  import opened Options
  import opened Bytes
  import opened Fragmenter
  import opened FragmentBuffer
  import opened FragmentAccounting
  import opened Reassembly

  /** The cut points of one split of `n` bytes: from 0 to `n`, every piece carrying bytes unless there is
      just one. */
  predicate Cuts(cuts: seq<nat>, n: nat) {
    |cuts| >= 2 && cuts[0] == 0 && cuts[|cuts| - 1] == n &&
    (|cuts| == 2 || forall j, k :: 0 <= j < k < |cuts| ==> cuts[j] < cuts[k])
  }

  /** What fragmentHandshake sends for any MTU is one such split. */
  function CutsOf(pieces: seq<seq<byte>>): (cuts: seq<nat>) {
    seq(|pieces| + 1, k requires 0 <= k <= |pieces| => Offset(pieces, k))
  }

  lemma MtuPiece(body: seq<byte>, mtu: nat, k: nat)
    requires mtu > 0 && k < |Pieces(body, mtu)|
    ensures var pieces := Pieces(body, mtu);
            var o, o' := CutsOf(pieces)[k], CutsOf(pieces)[k + 1];
            o <= o' <= |body| && pieces[k] == body[o..o'] && (|pieces| > 1 ==> o < o')
  {
    PiecesAreOneSplit(body, mtu);
    PieceSlice(Pieces(body, mtu), k);
  }

  lemma MtuSplitCuts(body: seq<byte>, mtu: nat)
    requires mtu > 0
    ensures Cuts(CutsOf(Pieces(body, mtu)), |body|)
  {
    var pieces := Pieces(body, mtu);
    var cuts := CutsOf(pieces);
    PiecesAreOneSplit(body, mtu);
    assert pieces[..|pieces|] == pieces;
    if |pieces| > 1 {
      forall j, k | 0 <= j < k < |cuts| ensures cuts[j] < cuts[k] {
        if k < |pieces| {
          OffsetsGrow(pieces, j, k);
        } else {
          MtuPiece(body, mtu, k - 1);
          if j < k - 1 { OffsetsGrow(pieces, j, k - 1); }
        }
      }
    }
  }

  /** The one split each message travels in. */
  predicate Splits(msgs: seq<Sent>, splits: seq<seq<nat>>) {
    |splits| == |msgs| && forall i :: 0 <= i < |msgs| ==> Cuts(splits[i], |msgs[i].body|)
  }

  /** Piece `k` of a split is `len` bytes at `off`. */
  predicate IsPiece(cuts: seq<nat>, k: nat, off: int, len: int)
    requires k + 1 < |cuts|
  {
    cuts[k] == off && cuts[k + 1] == off + len
  }

  predicate SomePiece(cuts: seq<nat>, off: int, len: int) {
    exists k :: 0 <= k < |cuts| - 1 && IsPiece(cuts, k, off, len)
  }

  predicate FromSplit(splits: seq<seq<nat>>, sl: Slice) {
    sl.i < |splits| && SomePiece(splits[sl.i], sl.off, sl.len)
  }

  predicate FromSplits(splits: seq<seq<nat>>, events: seq<NetEvent>) {
    forall n :: 0 <= n < |events| && events[n].Record? ==>
      forall k :: 0 <= k < |events[n].slices| ==> FromSplit(splits, events[n].slices[k])
  }

  function SliceSet(slices: seq<Slice>): set<Slice> {
    set sl | sl in slices
  }

  /** The pieces that have reached the buffer: those of every record that was not refused as overflow. */
  function Accepted(msgs: seq<Sent>, events: seq<NetEvent>): set<Slice>
    requires ValidMessages(msgs) && ValidEvents(msgs, events)
  {
    if events == [] then {}
    else
      var before := events[..|events| - 1];
      var e := events[|events| - 1];
      var r := Receive(msgs, before);
      if e.Record? && r.Run? && Push(r.s, RecordBytes(msgs, e)).1.Pushed?
      then Accepted(msgs, before) + SliceSet(e.slices)
      else Accepted(msgs, before)
  }

  /** The cache holds exactly the accepted pieces of the messages still to be delivered. */
  ghost predicate Tracked(s: State, acc: set<Slice>) {
    && (forall i, o :: i in s.cache && o in s.cache[i].byOffset ==> Slice(i, o, |s.cache[i].byOffset[o].data|) in acc)
    && (forall sl :: sl in acc && s.current <= sl.i ==> sl.i in s.cache && sl.off in s.cache[sl.i].byOffset)
  }

  lemma StoreTracked(msgs: seq<Sent>, s: State, sl: Slice, acc: set<Slice>)
    requires ValidMessages(msgs) && ValidSlice(msgs, sl) && Tracked(s, acc) && s.current <= sl.i
    ensures Tracked(Store(s, msgs[sl.i].epoch, SliceHeader(msgs, sl), SliceData(msgs, sl)), acc + {sl})
  {
    assert |SliceData(msgs, sl)| == sl.len;
  }

  lemma {:induction false} StoreSlicesTracked(msgs: seq<Sent>, s: State, epoch: u16, slices: seq<Slice>,
                                              acc: set<Slice>)
    requires ValidMessages(msgs) && Tracked(s, acc)
    requires forall k :: 0 <= k < |slices| ==> ValidSlice(msgs, slices[k]) && msgs[slices[k].i].epoch == epoch
    ensures Tracked(StoreSlices(msgs, s, epoch, slices), acc + SliceSet(slices))
    decreases |slices|
  {
    if slices == [] {
      assert acc + SliceSet(slices) == acc;
    } else {
      var sl := slices[0];
      if s.current <= sl.i { StoreTracked(msgs, s, sl, acc); }
      var next := if sl.i < s.current then s else Store(s, epoch, SliceHeader(msgs, sl), SliceData(msgs, sl));
      StoreSlicesTracked(msgs, next, epoch, slices[1..], acc + {sl});
      assert SliceSet(slices) == {sl} + SliceSet(slices[1..]) by { assert slices == [sl] + slices[1..]; }
      assert acc + {sl} + SliceSet(slices[1..]) == acc + SliceSet(slices);
    }
  }

  /** The books, the soundness and the tracking, together, over every run. */
  lemma {:induction false} RunTracked(msgs: seq<Sent>, events: seq<NetEvent>)
    requires ValidMessages(msgs) && ValidEvents(msgs, events)
    ensures var r := Receive(msgs, events);
            r.Run? && Sound(msgs, r.s) && RunAccounted(r) && Tracked(r.s, Accepted(msgs, events))
  {
    DeliversSendersBytes(msgs, events);
    if events != [] {
      var before := events[..|events| - 1];
      RunTracked(msgs, before);
      var e := events[|events| - 1];
      StepAccounted(Receive(msgs, before), Wire(msgs, e));
      StepTracked(msgs, Receive(msgs, before), e, Accepted(msgs, before));
    }
  }

  lemma StepTracked(msgs: seq<Sent>, r: Run, e: NetEvent, acc: set<Slice>)
    requires ValidMessages(msgs) && ValidEvent(msgs, e) && r.Run? && Sound(msgs, r.s) && Tracked(r.s, acc)
    ensures Step(r, Wire(msgs, e)).Run?
    ensures e.Record? ==>
              Tracked(Step(r, Wire(msgs, e)).s,
                      if Push(r.s, RecordBytes(msgs, e)).1.Pushed? then acc + SliceSet(e.slices) else acc)
    ensures e.TakeMessage? ==> Tracked(Step(r, Wire(msgs, e)).s, acc)
  {
    if e.Record? {
      PushRecord(msgs, r.s, e);
      StoreSlicesTracked(msgs, r.s, e.epoch, e.slices, acc);
    } else {
      PopSound(msgs, r.s);
      if Complete(r.s).Some? {
        CompleteIsBody(msgs, r.s);
        PopAdvances(r.s);
      }
    }
  }

  lemma {:induction false} AcceptedFromSplits(msgs: seq<Sent>, splits: seq<seq<nat>>, events: seq<NetEvent>)
    requires ValidMessages(msgs) && ValidEvents(msgs, events) && FromSplits(splits, events)
    ensures forall sl :: sl in Accepted(msgs, events) ==> FromSplit(splits, sl)
  {
    if events != [] {
      AcceptedFromSplits(msgs, splits, events[..|events| - 1]);
    }
  }

  /** The fragment stored at cut `k` is piece `k` of the body. */
  ghost predicate PieceAt(frags: Fragments, cuts: seq<nat>, k: nat, body: seq<byte>)
    requires k + 1 < |cuts|
  {
    var o := cuts[k];
    && o in frags.byOffset && o <= cuts[k + 1] <= |body|
    && frags.byOffset[o].data == body[o..cuts[k + 1]]
    && frags.byOffset[o].header.fragmentOffset == o &&
       frags.byOffset[o].header.fragmentLength == |frags.byOffset[o].data|
  }

  /** With every piece present the walk gathers the whole body. */
  lemma {:induction false} FullWalk(frags: Fragments, cuts: seq<nat>, k: nat, steps: nat, body: seq<byte>)
    requires Cuts(cuts, |body|) && |body| < U24_LIMIT && frags.handshakeLength == |body|
    requires k < |cuts| && |cuts| - 1 - k <= steps && cuts[k] <= |body|
    requires forall j :: 0 <= j < |cuts| - 1 ==> PieceAt(frags, cuts, j, body)
    ensures Walk(frags, steps, cuts[k], body[..cuts[k]]) == Some(body)
    decreases |cuts| - k
  {
    if cuts[k] < |body| {
      assert PieceAt(frags, cuts, k, body);
      assert body[..cuts[k]] + body[cuts[k]..cuts[k + 1]] == body[..cuts[k + 1]];
      FullWalk(frags, cuts, k + 1, steps - 1, body);
    } else {
      assert body[..cuts[k]] == body;
    }
  }

  /** A walk that gathered the whole body met every piece. */
  lemma {:induction false} WalkMetAll(frags: Fragments, cuts: seq<nat>, k: nat, steps: nat, body: seq<byte>)
    requires Cuts(cuts, |body|) && 0 < |body| < U24_LIMIT && frags.handshakeLength == |body|
    requires k < |cuts| && cuts[k] <= |body|
    requires forall j :: 0 <= j < |cuts| - 1 && cuts[j] in frags.byOffset ==> PieceAt(frags, cuts, j, body)
    requires var r := Walk(frags, steps, cuts[k], body[..cuts[k]]); r.Some? && |r.value| == |body|
    ensures forall j :: k <= j < |cuts| - 1 ==> cuts[j] in frags.byOffset
    decreases |cuts| - k
  {
    if k < |cuts| - 1 {
      assert PieceAt(frags, cuts, k, body);
      assert body[..cuts[k]] + body[cuts[k]..cuts[k + 1]] == body[..cuts[k + 1]];
      WalkMetAll(frags, cuts, k + 1, steps - 1, body);
    }
  }

  ghost predicate Holds(m: map<u32, Fragment>, cuts: seq<nat>, k: nat)
    requires k + 1 < |cuts|
  {
    cuts[k] in m && cuts[k] + |m[cuts[k]].data| == cuts[k + 1]
  }

  ghost predicate IsCut(cuts: seq<nat>, n: nat, o: int)
    requires n < |cuts|
  {
    exists k :: 0 <= k < n && cuts[k] == o
  }

  /** The map holds the first `n` pieces and nothing else. */
  ghost predicate FirstPieces(m: map<u32, Fragment>, cuts: seq<nat>, n: nat)
    requires n < |cuts|
  {
    && (forall o :: o in m ==> IsCut(cuts, n, o))
    && (forall k :: 0 <= k < n ==> Holds(m, cuts, k))
  }

  /** A split into several pieces has distinct cuts. */
  ghost predicate Apart(cuts: seq<nat>) {
    |cuts| == 2 || forall j, k :: 0 <= j < k < |cuts| ==> cuts[j] < cuts[k]
  }

  lemma WithoutLast(m: map<u32, Fragment>, cuts: seq<nat>, n: nat)
    requires 0 < n < |cuts| && FirstPieces(m, cuts, n)
    requires Apart(cuts)
    ensures FirstPieces(m - {cuts[n - 1]}, cuts, n - 1)
  {
    var m' := m - {cuts[n - 1]};
    forall k | 0 <= k < n - 1 ensures Holds(m', cuts, k) { assert Holds(m, cuts, k); }
    forall o | o in m' ensures IsCut(cuts, n - 1, o) { assert IsCut(cuts, n, o); }
  }

  /** `n` fragments of `bytes` bytes together. */
  ghost predicate Totals(m: map<u32, Fragment>, n: nat, bytes: nat) {
    |m| == n && Sum(m, DataLength) == bytes
  }

  lemma TakeOne(m: map<u32, Fragment>, o: u32, n: nat, bytes: nat)
    requires o in m && Totals(m - {o}, n, bytes)
    ensures Totals(m, n + 1, |m[o].data| + bytes)
  {
    SumSplit(m, DataLength, o);
    assert (m - {o}).Keys == m.Keys - {o};
  }

  lemma NoPieces(m: map<u32, Fragment>, cuts: seq<nat>)
    requires cuts != [] && FirstPieces(m, cuts, 0)
    ensures Totals(m, 0, 0)
  {
    assert m.Keys == {};
  }

  /** A map holding exactly the first `n` pieces has `n` entries and their bytes in total. */
  lemma {:induction false} SumOfPieces(m: map<u32, Fragment>, cuts: seq<nat>, n: nat)
    requires n < |cuts| && cuts[0] == 0 && FirstPieces(m, cuts, n)
    requires Apart(cuts)
    ensures Totals(m, n, cuts[n])
  {
    if n == 0 {
      NoPieces(m, cuts);
    } else {
      assert Holds(m, cuts, n - 1);
      WithoutLast(m, cuts, n);
      SumOfPieces(m - {cuts[n - 1]}, cuts, n - 1);
      TakeOne(m, cuts[n - 1], n - 1, cuts[n - 1]);
    }
  }

  /** Piece `k` of message `i` is among the accepted ones. */
  ghost predicate Arrived(cuts: seq<nat>, i: nat, k: nat, acc: set<Slice>)
    requires k + 1 < |cuts|
  {
    exists sl :: sl in acc && sl.i == i && IsPiece(cuts, k, sl.off, sl.len)
  }

  ghost predicate AllArrived(cuts: seq<nat>, i: nat, acc: set<Slice>) {
    forall k :: 0 <= k < |cuts| - 1 ==> Arrived(cuts, i, k, acc)
  }

  /** The stored fragment at `o` is one of the pieces of the body. */
  ghost predicate HeldPiece(frags: Fragments, cuts: seq<nat>, body: seq<byte>, o: u32)
    requires o in frags.byOffset
  {
    var f := frags.byOffset[o];
    && o + |f.data| <= |body| && f.data == body[o..o + |f.data|]
    && f.header.fragmentOffset == o && f.header.fragmentLength == |f.data|
    && SomePiece(cuts, o, |f.data|)
  }

  /** One message's entry, seen through its split. */
  ghost predicate EntryOf(frags: Fragments, cuts: seq<nat>, body: seq<byte>) {
    && Cuts(cuts, |body|) && |body| < U24_LIMIT
    && frags.handshakeLength == |body|
    && frags.fragmentsLength == Sum(frags.byOffset, DataLength)
    && frags.byOffset.Keys != {}
    && forall o :: o in frags.byOffset ==> HeldPiece(frags, cuts, body, o)
  }

  lemma HeldAtCut(frags: Fragments, cuts: seq<nat>, body: seq<byte>, k: nat)
    requires EntryOf(frags, cuts, body) && k < |cuts| - 1 && cuts[k] in frags.byOffset
    ensures PieceAt(frags, cuts, k, body) && Holds(frags.byOffset, cuts, k)
  {
    var o := cuts[k];
    assert HeldPiece(frags, cuts, body, o);
    var j :| 0 <= j < |cuts| - 1 && IsPiece(cuts, j, o, |frags.byOffset[o].data|);
    assert j == k;
  }

  /** pop's test on one entry: the lengths add up and the walk from 0 gathers all of it. */
  ghost predicate Gathers(frags: Fragments, body: seq<byte>) {
    frags.fragmentsLength == frags.handshakeLength && Walk(frags, |frags.byOffset|, 0, []) == Some(body)
  }

  lemma GathersOnlyIfAll(frags: Fragments, cuts: seq<nat>, body: seq<byte>, k: nat)
    requires EntryOf(frags, cuts, body) && Gathers(frags, body) && k < |cuts| - 1
    ensures cuts[k] in frags.byOffset
  {
    if |body| == 0 {
      var o :| o in frags.byOffset.Keys;
      assert HeldPiece(frags, cuts, body, o);
    } else {
      forall j | 0 <= j < |cuts| - 1 && cuts[j] in frags.byOffset ensures PieceAt(frags, cuts, j, body) {
        HeldAtCut(frags, cuts, body, j);
      }
      assert body[..cuts[0]] == [];
      WalkMetAll(frags, cuts, 0, |frags.byOffset|, body);
    }
  }

  lemma HeldIsCut(frags: Fragments, cuts: seq<nat>, body: seq<byte>, o: u32)
    requires cuts != [] && o in frags.byOffset && HeldPiece(frags, cuts, body, o)
    ensures IsCut(cuts, |cuts| - 1, o)
  {
    var j :| 0 <= j < |cuts| - 1 && IsPiece(cuts, j, o, |frags.byOffset[o].data|);
  }

  lemma AllHeldAreFirst(frags: Fragments, cuts: seq<nat>, body: seq<byte>)
    requires EntryOf(frags, cuts, body)
    requires forall k :: 0 <= k < |cuts| - 1 ==> cuts[k] in frags.byOffset
    ensures FirstPieces(frags.byOffset, cuts, |cuts| - 1)
  {
    forall k | 0 <= k < |cuts| - 1 ensures Holds(frags.byOffset, cuts, k) {
      HeldAtCut(frags, cuts, body, k);
    }
    forall o | o in frags.byOffset ensures IsCut(cuts, |cuts| - 1, o) {
      HeldIsCut(frags, cuts, body, o);
    }
  }

  lemma AllHeldLengths(frags: Fragments, cuts: seq<nat>, body: seq<byte>)
    requires Cuts(cuts, |body|) && FirstPieces(frags.byOffset, cuts, |cuts| - 1)
    ensures Sum(frags.byOffset, DataLength) == |body| && |frags.byOffset| == |cuts| - 1
  {
    SumOfPieces(frags.byOffset, cuts, |cuts| - 1);
  }

  lemma GathersIfAll(frags: Fragments, cuts: seq<nat>, body: seq<byte>)
    requires EntryOf(frags, cuts, body)
    requires forall k :: 0 <= k < |cuts| - 1 ==> cuts[k] in frags.byOffset
    ensures Gathers(frags, body)
  {
    AllHeldAreFirst(frags, cuts, body);
    AllHeldLengths(frags, cuts, body);
    forall k | 0 <= k < |cuts| - 1 ensures PieceAt(frags, cuts, k, body) {
      HeldAtCut(frags, cuts, body, k);
    }
    assert body[..cuts[0]] == [];
    FullWalk(frags, cuts, 0, |frags.byOffset|, body);
  }

  /** On one entry: the message can be gathered exactly when every piece is held. */
  lemma GathersIffAll(frags: Fragments, cuts: seq<nat>, body: seq<byte>)
    requires EntryOf(frags, cuts, body)
    ensures Gathers(frags, body) <==> forall k :: 0 <= k < |cuts| - 1 ==> cuts[k] in frags.byOffset
  {
    if Gathers(frags, body) {
      forall k | 0 <= k < |cuts| - 1 ensures cuts[k] in frags.byOffset {
        GathersOnlyIfAll(frags, cuts, body, k);
      }
    } else if forall k :: 0 <= k < |cuts| - 1 ==> cuts[k] in frags.byOffset {
      GathersIfAll(frags, cuts, body);
    }
  }

  /** The receiver's state in a run whose records all carry pieces of the given splits. */
  ghost predicate Receiving(msgs: seq<Sent>, splits: seq<seq<nat>>, s: State, acc: set<Slice>) {
    && ValidMessages(msgs) && Splits(msgs, splits)
    && Sound(msgs, s) && Accounted(s) && Tracked(s, acc)
    && forall sl :: sl in acc ==> FromSplit(splits, sl)
  }

  lemma SliceIsHeldPiece(msgs: seq<Sent>, splits: seq<seq<nat>>, i: u16, frags: Fragments, o: u32)
    requires ValidMessages(msgs) && i < |msgs| == |splits| && o in frags.byOffset
    requires IsSlice(msgs, i, o, frags.byOffset[o]) && FromSplit(splits, Slice(i, o, |frags.byOffset[o].data|))
    ensures HeldPiece(frags, splits[i], msgs[i].body, o)
  {
  }

  lemma ReceivingEntry(msgs: seq<Sent>, splits: seq<seq<nat>>, s: State, acc: set<Slice>, i: u16)
    requires Receiving(msgs, splits, s, acc) && i in s.cache
    ensures i < |msgs| && EntryOf(s.cache[i], splits[i], msgs[i].body)
  {
    var frags := s.cache[i];
    assert SoundEntry(msgs, i, frags) && Booked(frags, i) && Cuts(splits[i], |msgs[i].body|);
    forall o | o in frags.byOffset ensures HeldPiece(frags, splits[i], msgs[i].body, o) {
      assert Slice(i, o, |frags.byOffset[o].data|) in acc;
      SliceIsHeldPiece(msgs, splits, i, frags, o);
    }
  }

  ghost predicate HeldAt(s: State, cuts: seq<nat>, i: u16, k: nat)
    requires k < |cuts|
  {
    i in s.cache && cuts[k] in s.cache[i].byOffset
  }

  lemma ArrivedIffHeld(msgs: seq<Sent>, splits: seq<seq<nat>>, s: State, acc: set<Slice>, i: u16, k: nat)
    requires Receiving(msgs, splits, s, acc) && s.current <= i < |msgs| && k < |splits[i]| - 1
    ensures Arrived(splits[i], i, k, acc) <==> HeldAt(s, splits[i], i, k)
  {
    if HeldAt(s, splits[i], i, k) {
      ReceivingEntry(msgs, splits, s, acc, i);
      HeldAtCut(s.cache[i], splits[i], msgs[i].body, k);
      var sl := Slice(i, splits[i][k], |s.cache[i].byOffset[splits[i][k]].data|);
      assert sl in acc && IsPiece(splits[i], k, sl.off, sl.len);
    }
  }

  lemma CompleteIffGathers(msgs: seq<Sent>, s: State)
    requires ValidMessages(msgs) && Sound(msgs, s)
    ensures Complete(s).Some? <==> s.current in s.cache && Gathers(s.cache[s.current], msgs[s.current].body)
  {
    CompleteIsBody(msgs, s);
  }

  ghost predicate AllHeld(s: State, cuts: seq<nat>, i: u16) {
    forall k :: 0 <= k < |cuts| - 1 ==> HeldAt(s, cuts, i, k)
  }

  lemma AllHeldMeans(s: State, cuts: seq<nat>, i: u16)
    requires |cuts| >= 2
    ensures AllHeld(s, cuts, i) <==>
            i in s.cache && forall k :: 0 <= k < |cuts| - 1 ==> cuts[k] in s.cache[i].byOffset
  {
    if AllHeld(s, cuts, i) {
      assert HeldAt(s, cuts, i, 0);
      forall k | 0 <= k < |cuts| - 1 ensures cuts[k] in s.cache[i].byOffset { assert HeldAt(s, cuts, i, k); }
    }
  }

  lemma AllArrivedIffHeld(msgs: seq<Sent>, splits: seq<seq<nat>>, s: State, acc: set<Slice>, i: u16)
    requires Receiving(msgs, splits, s, acc) && s.current <= i < |msgs|
    ensures AllArrived(splits[i], i, acc) <==> AllHeld(s, splits[i], i)
  {
    forall k | 0 <= k < |splits[i]| - 1 ensures Arrived(splits[i], i, k, acc) <==> HeldAt(s, splits[i], i, k) {
      ArrivedIffHeld(msgs, splits, s, acc, i, k);
    }
  }

  lemma CompleteIffAllArrived(msgs: seq<Sent>, splits: seq<seq<nat>>, s: State, acc: set<Slice>)
    requires Receiving(msgs, splits, s, acc) && s.current < |msgs|
    ensures Complete(s).Some? <==> AllArrived(splits[s.current], s.current, acc)
  {
    CompleteIffGathers(msgs, s);
    AllArrivedIffHeld(msgs, splits, s, acc, s.current);
    assert Cuts(splits[s.current], |msgs[s.current].body|);
    AllHeldMeans(s, splits[s.current], s.current);
    if s.current in s.cache {
      ReceivingEntry(msgs, splits, s, acc, s.current);
      GathersIffAll(s.cache[s.current], splits[s.current], msgs[s.current].body);
    }
  }

  /** For every list of messages, every split of each, and every network run that carries pieces of those
      splits (lost, duplicated, reordered, regrouped into records, interleaved across messages): pop
      delivers next exactly when every piece of the next undelivered message has been accepted, and then
      delivers the unfragmented bytes and epoch its sender cached. */
  lemma DeliversExactlyWhenComplete(msgs: seq<Sent>, splits: seq<seq<nat>>, events: seq<NetEvent>)
    requires ValidMessages(msgs) && Splits(msgs, splits) && ValidEvents(msgs, events) && FromSplits(splits, events)
    ensures var r := Receive(msgs, events);
            && r.Run? && CanPop(r.s)
            && var n := |r.delivered|;
            && n <= |msgs|
            && (Pop(r.s).1.Message? <==> n < |msgs| && AllArrived(splits[n], n, Accepted(msgs, events)))
            && (Pop(r.s).1.Message? ==> Pop(r.s).1 == Expected(msgs, n))
  {
    DeliversSendersBytes(msgs, events);
    RunTracked(msgs, events);
    AcceptedFromSplits(msgs, splits, events);
    var r := Receive(msgs, events);
    PopSound(msgs, r.s);
    if r.s.current < |msgs| {
      CompleteIffAllArrived(msgs, splits, r.s, Accepted(msgs, events));
    }
  }
}
