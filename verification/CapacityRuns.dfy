/** Which runs lose nothing to the buffer's bounds, and which messages can never be delivered. */
module CapacityRuns {
  import opened Options
  import opened FragmentBuffer
  import opened FragmentAccounting
  import opened Reassembly
  import opened Delivery
  import opened Capacity

  predicate ValidNetwork(msgs: seq<Sent>, splits: seq<seq<nat>>, events: seq<NetEvent>) {
    ValidMessages(msgs) && Splits(msgs, splits) && ValidEvents(msgs, events) && FromSplits(splits, events)
  }

  lemma PrefixValid(msgs: seq<Sent>, splits: seq<seq<nat>>, events: seq<NetEvent>, n: nat)
    requires ValidNetwork(msgs, splits, events) && n <= |events|
    ensures ValidNetwork(msgs, splits, events[..n])
  {
  }

  /** The buffer has delivered what the unbounded receiver has, and holds every other piece that arrived. */
  ghost predicate Keeps(msgs: seq<Sent>, splits: seq<seq<nat>>, events: seq<NetEvent>)
    requires ValidNetwork(msgs, splits, events)
  {
    var r, d := Receive(msgs, events), IdealRun(splits, events);
    r.Run? && r.s.current == d.next && Tracked(r.s, d.arrived)
  }

  /** A record brings a piece that is still waited for. */
  predicate BringsNew(d: Ideal, e: NetEvent)
    requires e.Record?
  {
    exists sl :: sl in e.slices && d.next <= sl.i && sl !in d.arrived
  }

  /** There is room for the record, beside the pieces that wait. */
  ghost predicate HasRoom(msgs: seq<Sent>, d: Ideal, e: NetEvent)
    requires ValidMessages(msgs) && ValidEvent(msgs, e) && e.Record?
  {
    && |Waiting(d)| < FRAGMENT_BUFFER_MAX_COUNT
    && Weight(Waiting(d)) + |RecordBytes(msgs, e)| < FRAGMENT_BUFFER_MAX_SIZE
  }

  ghost predicate Fits(msgs: seq<Sent>, d: Ideal, e: NetEvent)
    requires ValidMessages(msgs) && ValidEvent(msgs, e)
  {
    e.Record? && BringsNew(d, e) ==> HasRoom(msgs, d, e)
  }

  lemma {:induction false} ArrivedFromSplits(splits: seq<seq<nat>>, events: seq<NetEvent>)
    requires FromSplits(splits, events)
    ensures forall sl :: sl in ArrivedSlices(events) ==> FromSplit(splits, sl)
  {
    if events != [] {
      ArrivedFromSplits(splits, events[..|events| - 1]);
    }
  }

  lemma KeepsReceiving(msgs: seq<Sent>, splits: seq<seq<nat>>, events: seq<NetEvent>)
    requires ValidNetwork(msgs, splits, events) && Keeps(msgs, splits, events)
    ensures Receiving(msgs, splits, Receive(msgs, events).s, IdealRun(splits, events).arrived)
  {
    RunTracked(msgs, events);
    IdealArrived(splits, events);
    ArrivedFromSplits(splits, events);
  }

  /** A record is refused exactly when there is no room for it. */
  lemma RefusedIff(msgs: seq<Sent>, s: State, d: Ideal, e: NetEvent)
    requires ValidMessages(msgs) && ValidEvent(msgs, e) && e.Record?
    requires s.count == |Waiting(d)| && s.size == Weight(Waiting(d))
    ensures Push(s, RecordBytes(msgs, e)).0 ==
            if HasRoom(msgs, d, e) then StoreSlices(msgs, s, e.epoch, e.slices) else s
  {
    PushRecord(msgs, s, e);
  }

  /** A slice of the split that has not arrived is not held. */
  lemma NewIsNotHeld(msgs: seq<Sent>, splits: seq<seq<nat>>, s: State, acc: set<Slice>, sl: Slice)
    requires Receiving(msgs, splits, s, acc) && FromSplit(splits, sl) && sl !in acc && sl.i in s.cache
    ensures sl.off !in s.cache[sl.i].byOffset
  {
    if sl.off in s.cache[sl.i].byOffset {
      var held := Slice(sl.i, sl.off, |s.cache[sl.i].byOffset[sl.off].data|);
      assert held in acc && FromSplit(splits, held);
      SamePiece(splits[sl.i], |msgs[sl.i].body|, sl.off, sl.len, held.len);
    }
  }

  /** One record: the pieces it brings are tracked exactly when they are not new or there is room. */
  lemma RecordKeepsIff(msgs: seq<Sent>, splits: seq<seq<nat>>, s: State, d: Ideal, e: NetEvent)
    requires Receiving(msgs, splits, s, d.arrived) && s.current == d.next && ValidEvent(msgs, e) && e.Record?
    requires forall k :: 0 <= k < |e.slices| ==> FromSplit(splits, e.slices[k])
    ensures var s' := Push(s, RecordBytes(msgs, e)).0;
            s'.current == s.current && (Tracked(s', d.arrived + SliceSet(e.slices)) <==> Fits(msgs, d, e))
  {
    assert Ideal(s.current, d.arrived) == d;
    CountersAreWaiting(msgs, splits, s, d.arrived);
    RefusedIff(msgs, s, d, e);
    StoreSlicesSound(msgs, s, e.epoch, e.slices);
    if HasRoom(msgs, d, e) {
      StoreSlicesTracked(msgs, s, e.epoch, e.slices, d.arrived);
    } else if BringsNew(d, e) {
      var sl :| sl in e.slices && d.next <= sl.i && sl !in d.arrived;
      assert sl in d.arrived + SliceSet(e.slices);
      if sl.i in s.cache { NewIsNotHeld(msgs, splits, s, d.arrived, sl); }
    }
  }

  lemma CompleteIffIdeal(msgs: seq<Sent>, splits: seq<seq<nat>>, s: State, acc: set<Slice>)
    requires Receiving(msgs, splits, s, acc)
    ensures Complete(s).Some? <==> s.current < |splits| && AllArrived(splits[s.current], s.current, acc)
  {
    if s.current < |msgs| {
      CompleteIffAllArrived(msgs, splits, s, acc);
    } else {
      CompleteIsBody(msgs, s);
    }
  }

  lemma TakeAdvances(msgs: seq<Sent>, r: Run)
    requires r.Run? && ValidMessages(msgs) && Sound(msgs, r.s)
    ensures var r' := Step(r, Take);
            r'.Run? && r'.s.current == if Complete(r.s).Some? then r.s.current + 1 else r.s.current
  {
    PopSound(msgs, r.s);
  }

  /** One pop: the buffer delivers exactly when the unbounded receiver does. */
  lemma TakeKeeps(msgs: seq<Sent>, splits: seq<seq<nat>>, r: Run, d: Ideal)
    requires r.Run? && Receiving(msgs, splits, r.s, d.arrived) && r.s.current == d.next
    ensures var r' := Step(r, Take);
            var d' := IdealStep(splits, d, TakeMessage);
            r'.Run? && r'.s.current == d'.next && Tracked(r'.s, d'.arrived)
  {
    StepTracked(msgs, r, TakeMessage, d.arrived);
    CompleteIffIdeal(msgs, splits, r.s, d.arrived);
    TakeAdvances(msgs, r);
  }

  lemma KeepsStep(msgs: seq<Sent>, splits: seq<seq<nat>>, events: seq<NetEvent>)
    requires ValidNetwork(msgs, splits, events) && events != []
    requires ValidNetwork(msgs, splits, events[..|events| - 1]) && Keeps(msgs, splits, events[..|events| - 1])
    ensures Keeps(msgs, splits, events) <==> Fits(msgs, IdealRun(splits, events[..|events| - 1]), events[|events| - 1])
  {
    var before, e := events[..|events| - 1], events[|events| - 1];
    var r, d := Receive(msgs, before), IdealRun(splits, before);
    KeepsReceiving(msgs, splits, before);
    if e.Record? {
      RecordKeepsIff(msgs, splits, r.s, d, e);
    } else {
      TakeKeeps(msgs, splits, r, d);
    }
  }

  /** At every moment of the run. */
  ghost predicate AlwaysKeeps(msgs: seq<Sent>, splits: seq<seq<nat>>, events: seq<NetEvent>)
    requires ValidNetwork(msgs, splits, events)
  {
    Keeps(msgs, splits, events) &&
    (events == [] ||
     (PrefixValid(msgs, splits, events, |events| - 1);
      AlwaysKeeps(msgs, splits, events[..|events| - 1])))
  }

  ghost predicate AlwaysFits(msgs: seq<Sent>, splits: seq<seq<nat>>, events: seq<NetEvent>)
    requires ValidNetwork(msgs, splits, events)
  {
    events == [] ||
    (PrefixValid(msgs, splits, events, |events| - 1);
     && AlwaysFits(msgs, splits, events[..|events| - 1])
     && Fits(msgs, IdealRun(splits, events[..|events| - 1]), events[|events| - 1]))
  }

  /** For every run: the buffer keeps every piece that arrives, and delivers when the unbounded receiver does, if and
      only if each record that brings a new piece finds fewer than 1000 pieces and enough bytes free. */
  lemma {:induction false} KeepsEverythingIff(msgs: seq<Sent>, splits: seq<seq<nat>>, events: seq<NetEvent>)
    requires ValidNetwork(msgs, splits, events)
    ensures AlwaysKeeps(msgs, splits, events) <==> AlwaysFits(msgs, splits, events)
  {
    if events != [] {
      var before := events[..|events| - 1];
      PrefixValid(msgs, splits, events, |events| - 1);
      KeepsEverythingIff(msgs, splits, before);
      if AlwaysKeeps(msgs, splits, before) { KeepsStep(msgs, splits, events); }
    }
  }

  /** pop delivers the next message exactly when all its pieces have arrived. */
  ghost predicate DeliversWhatArrived(msgs: seq<Sent>, splits: seq<seq<nat>>, events: seq<NetEvent>)
    requires ValidNetwork(msgs, splits, events)
  {
    var r := Receive(msgs, events);
    && r.Run? && CanPop(r.s)
    && var n := |r.delivered|;
    && n <= |msgs|
    && (Pop(r.s).1.Message? <==> n < |msgs| && AllArrived(splits[n], n, ArrivedSlices(events)))
    && (Pop(r.s).1.Message? ==> Pop(r.s).1 == Expected(msgs, n))
  }

  lemma KeepsDelivers(msgs: seq<Sent>, splits: seq<seq<nat>>, events: seq<NetEvent>)
    requires ValidNetwork(msgs, splits, events) && Keeps(msgs, splits, events)
    ensures DeliversWhatArrived(msgs, splits, events)
  {
    var r := Receive(msgs, events);
    DeliversSendersBytes(msgs, events);
    KeepsReceiving(msgs, splits, events);
    IdealArrived(splits, events);
    PopSound(msgs, r.s);
    if r.s.current < |msgs| { CompleteIffAllArrived(msgs, splits, r.s, ArrivedSlices(events)); }
  }
}
