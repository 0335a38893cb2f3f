/** Which messages every network can deliver: exactly those cut into at most 1000 pieces in all
    (dtls/fragment_buffer.go, dtls/conn.go). */
module Deliverability {
  import opened Options
  import opened Bytes
  import opened Sequences
  import opened Fragmenter
  import opened FragmentBuffer
  import opened FragmentAccounting
  import opened Reassembly
  import opened Delivery
  import opened Capacity
  import opened CapacityRuns

  // ---------- Pieces of a split ----------

  function PieceOf(cuts: seq<nat>, i: nat, k: nat): Slice
    requires k + 1 < |cuts| && cuts[k] <= cuts[k + 1]
  {
    Slice(i, cuts[k], cuts[k + 1] - cuts[k])
  }

  /** The first `n` pieces of message `i`. */
  function PiecesOf(cuts: seq<nat>, i: nat, n: nat): set<Slice>
    requires n < |cuts| && forall k :: 0 <= k < |cuts| - 1 ==> Rises(cuts, k)
  {
    if n == 0 then {} else assert Rises(cuts, n - 1); PiecesOf(cuts, i, n - 1) + {PieceOf(cuts, i, n - 1)}
  }

  predicate Rises(cuts: seq<nat>, k: nat)
    requires k + 1 < |cuts|
  {
    cuts[k] <= cuts[k + 1]
  }

  lemma CutsRise(cuts: seq<nat>, n: nat)
    requires Cuts(cuts, n)
    ensures forall k :: 0 <= k < |cuts| - 1 ==> Rises(cuts, k)
  {
  }

  lemma {:induction false} InPiecesOf(cuts: seq<nat>, i: nat, n: nat, sl: Slice)
    requires n < |cuts| && forall k :: 0 <= k < |cuts| - 1 ==> Rises(cuts, k)
    ensures sl in PiecesOf(cuts, i, n) <==> sl.i == i && exists k :: 0 <= k < n && IsPiece(cuts, k, sl.off, sl.len)
  {
    if n > 0 {
      InPiecesOf(cuts, i, n - 1, sl);
      assert Rises(cuts, n - 1);
      assert sl == PieceOf(cuts, i, n - 1) <==> sl.i == i && IsPiece(cuts, n - 1, sl.off, sl.len);
    }
  }

  lemma {:induction false} PiecesOfTotals(cuts: seq<nat>, total: nat, i: nat, n: nat)
    requires Cuts(cuts, total) && n < |cuts| && forall k :: 0 <= k < |cuts| - 1 ==> Rises(cuts, k)
    ensures |PiecesOf(cuts, i, n)| == n && Weight(PiecesOf(cuts, i, n)) == cuts[n]
  {
    if n > 0 {
      PiecesOfTotals(cuts, total, i, n - 1);
      assert Rises(cuts, n - 1);
      var x := PieceOf(cuts, i, n - 1);
      InPiecesOf(cuts, i, n - 1, x);
      WeightOne(PiecesOf(cuts, i, n - 1), x);
    }
  }

  // ---------- Pieces of all messages ----------

  /** Pieces of the first messages, whose splits are given. */
  ghost function AllPieces(msgs: seq<Sent>, splits: seq<seq<nat>>): set<Slice>
    requires Splits(msgs, splits)
    decreases |msgs|
  {
    if msgs == [] then {}
    else
      var n := |msgs| - 1;
      CutsRise(splits[n], |msgs[n].body|);
      AllPieces(msgs[..n], splits[..n]) + PiecesOf(splits[n], n, |splits[n]| - 1)
  }

  function PieceCount(splits: seq<seq<nat>>): int {
    if splits == [] then 0 else PieceCount(splits[..|splits| - 1]) + |splits[|splits| - 1]| - 1
  }

  function BodyBytes(msgs: seq<Sent>): nat {
    if msgs == [] then 0 else BodyBytes(msgs[..|msgs| - 1]) + |msgs[|msgs| - 1].body|
  }

  lemma {:induction false} InAllPieces(msgs: seq<Sent>, splits: seq<seq<nat>>, sl: Slice)
    requires Splits(msgs, splits)
    ensures sl in AllPieces(msgs, splits) <==> FromSplit(splits, sl)
    decreases |msgs|
  {
    if msgs != [] {
      var n := |msgs| - 1;
      CutsRise(splits[n], |msgs[n].body|);
      InAllPieces(msgs[..n], splits[..n], sl);
      InPiecesOf(splits[n], n, |splits[n]| - 1, sl);
    }
  }

  ghost predicate PiecesAddUp(msgs: seq<Sent>, splits: seq<seq<nat>>)
    requires Splits(msgs, splits)
  {
    |AllPieces(msgs, splits)| == PieceCount(splits) && Weight(AllPieces(msgs, splits)) == BodyBytes(msgs)
  }

  lemma LastMessageApart(msgs: seq<Sent>, splits: seq<seq<nat>>, n: nat)
    requires Splits(msgs, splits) && |msgs| == n + 1
    requires forall k :: 0 <= k < |splits[n]| - 1 ==> Rises(splits[n], k)
    ensures AllPieces(msgs[..n], splits[..n]) !! PiecesOf(splits[n], n, |splits[n]| - 1)
  {
    var before, last := AllPieces(msgs[..n], splits[..n]), PiecesOf(splits[n], n, |splits[n]| - 1);
    forall sl | sl in before ensures sl !in last {
      InAllPieces(msgs[..n], splits[..n], sl);
      InPiecesOf(splits[n], n, |splits[n]| - 1, sl);
    }
  }

  lemma MessageTotals(msgs: seq<Sent>, splits: seq<seq<nat>>, n: nat)
    requires Splits(msgs, splits) && |msgs| == n + 1
    ensures PieceCount(splits) == PieceCount(splits[..n]) + |splits[n]| - 1
    ensures BodyBytes(msgs) == BodyBytes(msgs[..n]) + |msgs[n].body|
  {
  }

  lemma OneMessageMore(msgs: seq<Sent>, splits: seq<seq<nat>>, n: nat)
    requires Splits(msgs, splits) && |msgs| == n + 1 && PiecesAddUp(msgs[..n], splits[..n])
    ensures PiecesAddUp(msgs, splits)
  {
    CutsRise(splits[n], |msgs[n].body|);
    PiecesOfTotals(splits[n], |msgs[n].body|, n, |splits[n]| - 1);
    LastMessageApart(msgs, splits, n);
    MessageTotals(msgs, splits, n);
    assert splits[n][|splits[n]| - 1] == |msgs[n].body|;
    WeightUnion(AllPieces(msgs[..n], splits[..n]), PiecesOf(splits[n], n, |splits[n]| - 1));
  }

  lemma {:induction false} PiecesAlwaysAddUp(msgs: seq<Sent>, splits: seq<seq<nat>>)
    requires Splits(msgs, splits)
    ensures PiecesAddUp(msgs, splits)
    decreases |msgs|
  {
    if msgs != [] {
      var n := |msgs| - 1;
      PiecesAlwaysAddUp(msgs[..n], splits[..n]);
      OneMessageMore(msgs, splits, n);
    }
  }

  lemma AllPiecesTotals(msgs: seq<Sent>, splits: seq<seq<nat>>)
    requires Splits(msgs, splits)
    ensures |AllPieces(msgs, splits)| == PieceCount(splits) && Weight(AllPieces(msgs, splits)) == BodyBytes(msgs)
  {
    PiecesAlwaysAddUp(msgs, splits);
  }

  // ---------- Enough room ----------

  /** Every record is at most `limit` bytes long. */
  predicate RecordsWithin(msgs: seq<Sent>, events: seq<NetEvent>, limit: nat)
    requires ValidMessages(msgs) && ValidEvents(msgs, events)
  {
    forall k :: 0 <= k < |events| && events[k].Record? ==> |RecordBytes(msgs, events[k])| <= limit
  }

  lemma WaitingArePieces(msgs: seq<Sent>, splits: seq<seq<nat>>, events: seq<NetEvent>)
    requires ValidNetwork(msgs, splits, events)
    ensures Waiting(IdealRun(splits, events)) <= AllPieces(msgs, splits)
  {
    IdealArrived(splits, events);
    ArrivedFromSplits(splits, events);
    forall sl | sl in Waiting(IdealRun(splits, events)) ensures sl in AllPieces(msgs, splits) {
      InAllPieces(msgs, splits, sl);
    }
  }

  lemma RecordFits(msgs: seq<Sent>, splits: seq<seq<nat>>, events: seq<NetEvent>, e: NetEvent, limit: nat)
    requires ValidNetwork(msgs, splits, events) && ValidEvent(msgs, e)
    requires e.Record? ==> forall k :: 0 <= k < |e.slices| ==> FromSplit(splits, e.slices[k])
    requires PieceCount(splits) <= FRAGMENT_BUFFER_MAX_COUNT && BodyBytes(msgs) + limit < FRAGMENT_BUFFER_MAX_SIZE
    requires e.Record? ==> |RecordBytes(msgs, e)| <= limit
    ensures Fits(msgs, IdealRun(splits, events), e)
  {
    var d := IdealRun(splits, events);
    AllPiecesTotals(msgs, splits);
    WaitingArePieces(msgs, splits, events);
    WeightSubset(Waiting(d), AllPieces(msgs, splits));
    if e.Record? && BringsNew(d, e) {
      var sl :| sl in e.slices && d.next <= sl.i && sl !in d.arrived;
      assert FromSplit(splits, sl);
      InAllPieces(msgs, splits, sl);
      assert Waiting(d) != AllPieces(msgs, splits);
    }
  }

  lemma {:induction false} RoomyRunsFit(msgs: seq<Sent>, splits: seq<seq<nat>>, events: seq<NetEvent>, limit: nat)
    requires ValidNetwork(msgs, splits, events) && RecordsWithin(msgs, events, limit)
    requires PieceCount(splits) <= FRAGMENT_BUFFER_MAX_COUNT && BodyBytes(msgs) + limit < FRAGMENT_BUFFER_MAX_SIZE
    ensures AlwaysFits(msgs, splits, events)
  {
    if events != [] {
      var n := |events| - 1;
      PrefixValid(msgs, splits, events, n);
      RoomyRunsFit(msgs, splits, events[..n], limit);
      RecordFits(msgs, splits, events[..n], events[n], limit);
    }
  }

  /** Messages of at most 1000 pieces in all, whose bodies leave room for one record: over every network run, pop
      delivers the next message exactly when all of its pieces have arrived. */
  lemma RoomyDelivers(msgs: seq<Sent>, splits: seq<seq<nat>>, events: seq<NetEvent>, limit: nat)
    requires ValidNetwork(msgs, splits, events) && RecordsWithin(msgs, events, limit)
    requires PieceCount(splits) <= FRAGMENT_BUFFER_MAX_COUNT && BodyBytes(msgs) + limit < FRAGMENT_BUFFER_MAX_SIZE
    ensures DeliversWhatArrived(msgs, splits, events)
  {
    RoomyRunsFit(msgs, splits, events, limit);
    KeepsEverythingIff(msgs, splits, events);
    KeepsDelivers(msgs, splits, events);
  }

  // ---------- Too many pieces ----------

  ghost predicate PopsNothing(s: State) {
    CanPop(s) && Complete(s).None?
  }

  /** A full buffer whose next message is incomplete. */
  ghost predicate Wedged(r: Run) {
    r.Run? && r.s.count >= FRAGMENT_BUFFER_MAX_COUNT && PopsNothing(r.s)
  }

  lemma WedgedStep(r: Run, e: Event)
    requires Wedged(r)
    ensures Step(r, e) == r
  {
  }

  function RunFrom(r: Run, events: seq<Event>): Run
    decreases |events|
  {
    if events == [] then r else RunFrom(Step(r, events[0]), events[1..])
  }

  /** Whatever arrives and however often pop is called, it never changes again. */
  lemma {:induction false} WedgedForever(r: Run, events: seq<Event>)
    requires Wedged(r)
    ensures RunFrom(r, events) == r
    decreases |events|
  {
    if events != [] {
      WedgedStep(r, events[0]);
      WedgedForever(r, events[1..]);
    }
  }

  /** Receiving `events` ends in `r`. */
  ghost predicate EndsIn(msgs: seq<Sent>, events: seq<NetEvent>, r: Run)
    requires ValidMessages(msgs)
  {
    ValidEvents(msgs, events) && Receive(msgs, events) == r
  }

  lemma EndsInWedged(msgs: seq<Sent>, events: seq<NetEvent>, e: NetEvent, r: Run)
    requires ValidMessages(msgs) && ValidEvent(msgs, e) && Wedged(r) && EndsIn(msgs, events, r)
    ensures EndsIn(msgs, events + [e], r)
  {
    assert (events + [e])[..|events|] == events;
    WedgedStep(r, Wire(msgs, e));
  }

  lemma {:induction false} StaysWedged(msgs: seq<Sent>, before: seq<NetEvent>, more: seq<NetEvent>, r: Run)
    requires ValidMessages(msgs) && ValidEvents(msgs, more) && Wedged(r) && EndsIn(msgs, before, r)
    ensures EndsIn(msgs, before + more, r)
    decreases |more|
  {
    if more == [] {
      assert before + more == before;
    } else {
      var n := |more| - 1;
      StaysWedged(msgs, before, more[..n], r);
      EndsInWedged(msgs, before + more[..n], more[n], r);
      SnocBack(before, more);
    }
  }

  /** A slice alone in a record. */
  function AloneIn(msgs: seq<Sent>, sl: Slice): NetEvent
    requires sl.i < |msgs|
  {
    Record(msgs[sl.i].epoch, [0, 0, 0, 0, 0, 0, 0, 0], [sl])
  }

  function Singly(msgs: seq<Sent>, list: seq<Slice>): seq<NetEvent>
    requires forall k :: 0 <= k < |list| ==> list[k].i < |msgs|
  {
    seq(|list|, k requires 0 <= k < |list| => AloneIn(msgs, list[k]))
  }

  predicate ArePieces(splits: seq<seq<nat>>, list: seq<Slice>) {
    forall k :: 0 <= k < |list| ==> FromSplit(splits, list[k])
  }

  lemma PieceIsValid(msgs: seq<Sent>, splits: seq<seq<nat>>, sl: Slice)
    requires Splits(msgs, splits) && FromSplit(splits, sl)
    ensures ValidSlice(msgs, sl)
  {
    var cuts := splits[sl.i];
    assert Cuts(cuts, |msgs[sl.i].body|);
    var k :| 0 <= k < |cuts| - 1 && IsPiece(cuts, k, sl.off, sl.len);
    if |cuts| > 2 && k + 1 < |cuts| - 1 { assert cuts[k + 1] < cuts[|cuts| - 1]; }
  }

  lemma SinglyValid(msgs: seq<Sent>, splits: seq<seq<nat>>, list: seq<Slice>)
    requires ValidMessages(msgs) && Splits(msgs, splits) && ArePieces(splits, list)
    ensures ValidNetwork(msgs, splits, Singly(msgs, list))
  {
    forall k | 0 <= k < |list| ensures ValidSlice(msgs, list[k]) { PieceIsValid(msgs, splits, list[k]); }
  }

  lemma AloneLength(msgs: seq<Sent>, sl: Slice)
    requires ValidMessages(msgs) && ValidSlice(msgs, sl)
    ensures ValidEvent(msgs, AloneIn(msgs, sl)) && |RecordBytes(msgs, AloneIn(msgs, sl))| == 25 + sl.len
  {
    assert SlicesBytes(msgs, [sl][1..]) == [];
  }

  predicate NoneTwice(list: seq<Slice>) {
    forall j, k :: 0 <= j < k < |list| ==> list[j] != list[k]
  }

  lemma {:induction false} SetOfList(list: seq<Slice>)
    requires NoneTwice(list)
    ensures |SliceSet(list)| == |list|
  {
    if list != [] {
      var n := |list| - 1;
      SetOfList(list[..n]);
      assert SliceSet(list) == SliceSet(list[..n]) + {list[n]};
    }
  }

  lemma {:induction false} ListOfSet(s: set<Slice>) returns (list: seq<Slice>)
    ensures NoneTwice(list) && SliceSet(list) == s && |list| == |s|
    decreases |s|
  {
    if s == {} {
      list := [];
    } else {
      var x :| x in s;
      list := ListOfSet(s - {x});
      assert x !in SliceSet(list);
      assert SliceSet(list + [x]) == SliceSet(list) + {x};
      list := list + [x];
    }
  }

  lemma {:induction false} SinglyArrives(msgs: seq<Sent>, splits: seq<seq<nat>>, list: seq<Slice>)
    requires forall k :: 0 <= k < |list| ==> list[k].i < |msgs|
    ensures IdealRun(splits, Singly(msgs, list)) == Ideal(0, SliceSet(list))
  {
    if list == [] {
      assert Singly(msgs, list) == [];
    } else {
      var n := |list| - 1;
      SinglyArrives(msgs, splits, list[..n]);
      assert Singly(msgs, list)[..n] == Singly(msgs, list[..n]);
      assert SliceSet(list) == SliceSet(list[..n]) + {list[n]};
      assert SliceSet([list[n]]) == {list[n]};
    }
  }

  lemma NextFits(msgs: seq<Sent>, splits: seq<seq<nat>>, list: seq<Slice>, sl: Slice, limit: nat)
    requires ValidMessages(msgs) && Splits(msgs, splits) && ArePieces(splits, list) && NoneTwice(list)
    requires |list| < FRAGMENT_BUFFER_MAX_COUNT && BodyBytes(msgs) + limit < FRAGMENT_BUFFER_MAX_SIZE
    requires ValidSlice(msgs, sl) && 25 + sl.len <= limit
    ensures ValidEvent(msgs, AloneIn(msgs, sl)) && Fits(msgs, Ideal(0, SliceSet(list)), AloneIn(msgs, sl))
  {
    AloneLength(msgs, sl);
    SetOfList(list);
    assert Waiting(Ideal(0, SliceSet(list))) == SliceSet(list);
    forall x | x in SliceSet(list) ensures x in AllPieces(msgs, splits) { InAllPieces(msgs, splits, x); }
    AllPiecesTotals(msgs, splits);
    WeightSubset(SliceSet(list), AllPieces(msgs, splits));
  }

  lemma AlwaysFitsSnoc(msgs: seq<Sent>, splits: seq<seq<nat>>, events: seq<NetEvent>, e: NetEvent)
    requires ValidNetwork(msgs, splits, events) && ValidNetwork(msgs, splits, events + [e]) && ValidEvent(msgs, e)
    requires AlwaysFits(msgs, splits, events) && Fits(msgs, IdealRun(splits, events), e)
    ensures AlwaysFits(msgs, splits, events + [e])
  {
    assert (events + [e])[..|events + [e]| - 1] == events;
  }

  ghost predicate FitsSingly(msgs: seq<Sent>, splits: seq<seq<nat>>, list: seq<Slice>)
    requires ValidMessages(msgs) && Splits(msgs, splits) && ArePieces(splits, list)
  {
    SinglyValid(msgs, splits, list);
    AlwaysFits(msgs, splits, Singly(msgs, list))
  }

  /** One by one, up to 1000 pieces fit. */
  lemma {:induction false} SinglyFits(msgs: seq<Sent>, splits: seq<seq<nat>>, list: seq<Slice>, limit: nat)
    requires ValidMessages(msgs) && Splits(msgs, splits) && ArePieces(splits, list) && NoneTwice(list)
    requires |list| <= FRAGMENT_BUFFER_MAX_COUNT && BodyBytes(msgs) + limit < FRAGMENT_BUFFER_MAX_SIZE
    requires forall k :: 0 <= k < |list| ==> 25 + list[k].len <= limit
    ensures FitsSingly(msgs, splits, list)
  {
    SinglyValid(msgs, splits, list);
    if list != [] {
      var n := |list| - 1;
      var before, sl := list[..n], list[n];
      SinglyFits(msgs, splits, before, limit);
      SinglyValid(msgs, splits, before);
      PieceIsValid(msgs, splits, sl);
      NextFits(msgs, splits, before, sl, limit);
      SinglyArrives(msgs, splits, before);
      assert Singly(msgs, list) == Singly(msgs, before) + [AloneIn(msgs, sl)];
      AlwaysFitsSnoc(msgs, splits, Singly(msgs, before), AloneIn(msgs, sl));
    }
  }

  lemma SinglyKeeps(msgs: seq<Sent>, splits: seq<seq<nat>>, list: seq<Slice>)
    requires ValidMessages(msgs) && Splits(msgs, splits) && ArePieces(splits, list) && FitsSingly(msgs, splits, list)
    ensures ValidNetwork(msgs, splits, Singly(msgs, list))
    ensures var r := Receive(msgs, Singly(msgs, list));
            r.Run? && r.s.current == 0 && Receiving(msgs, splits, r.s, SliceSet(list))
  {
    var events := Singly(msgs, list);
    SinglyValid(msgs, splits, list);
    KeepsEverythingIff(msgs, splits, events);
    KeepsReceiving(msgs, splits, events);
    SinglyArrives(msgs, splits, list);
  }

  lemma NoneDelivered(acc: set<Slice>)
    ensures Waiting(Ideal(0, acc)) == acc
  {
  }

  lemma FilledCount(msgs: seq<Sent>, splits: seq<seq<nat>>, s: State, acc: set<Slice>)
    requires s.current == 0 && Receiving(msgs, splits, s, acc)
    ensures s.count == |acc|
  {
    NoneDelivered(acc);
    CountersAreWaiting(msgs, splits, s, acc);
  }

  lemma IncompletePops(msgs: seq<Sent>, splits: seq<seq<nat>>, s: State, acc: set<Slice>)
    requires s.current == 0 && Receiving(msgs, splits, s, acc) && msgs != [] && !AllArrived(splits[0], 0, acc)
    ensures PopsNothing(s)
  {
    CompleteIffIdeal(msgs, splits, s, acc);
    SoundCanPop(msgs, s);
  }

  lemma FilledIsWedged(msgs: seq<Sent>, splits: seq<seq<nat>>, r: Run, acc: set<Slice>)
    requires r.Run? && r.s.current == 0 && Receiving(msgs, splits, r.s, acc)
    requires |acc| >= FRAGMENT_BUFFER_MAX_COUNT && msgs != [] && !AllArrived(splits[0], 0, acc)
    ensures Wedged(r)
  {
    FilledCount(msgs, splits, r.s, acc);
    IncompletePops(msgs, splits, r.s, acc);
  }

  /** 1000 pieces that do not complete message 0 fill the buffer for ever. */
  lemma SinglyWedges(msgs: seq<Sent>, splits: seq<seq<nat>>, list: seq<Slice>, limit: nat)
    requires ValidMessages(msgs) && Splits(msgs, splits) && ArePieces(splits, list) && NoneTwice(list)
    requires |list| == FRAGMENT_BUFFER_MAX_COUNT && BodyBytes(msgs) + limit < FRAGMENT_BUFFER_MAX_SIZE
    requires forall k :: 0 <= k < |list| ==> 25 + list[k].len <= limit
    requires msgs != [] && !AllArrived(splits[0], 0, SliceSet(list))
    ensures ValidNetwork(msgs, splits, Singly(msgs, list))
    ensures var r := Receive(msgs, Singly(msgs, list)); Wedged(r) && r.delivered == []
  {
    SinglyFits(msgs, splits, list, limit);
    SinglyKeeps(msgs, splits, list);
    SetOfList(list);
    FilledIsWedged(msgs, splits, Receive(msgs, Singly(msgs, list)), SliceSet(list));
    DeliversSendersBytes(msgs, Singly(msgs, list));
  }

  /** The last piece of message 0. */
  function LastOfFirst(msgs: seq<Sent>, splits: seq<seq<nat>>): Slice
    requires Splits(msgs, splits) && msgs != []
  {
    assert Cuts(splits[0], |msgs[0].body|);
    CutsRise(splits[0], |msgs[0].body|);
    assert Rises(splits[0], |splits[0]| - 2);
    PieceOf(splits[0], 0, |splits[0]| - 2)
  }

  lemma LastIsNeeded(msgs: seq<Sent>, splits: seq<seq<nat>>, acc: set<Slice>)
    requires Splits(msgs, splits) && msgs != []
    ensures FromSplit(splits, LastOfFirst(msgs, splits))
    ensures AllArrived(splits[0], 0, acc) ==> LastOfFirst(msgs, splits) in acc
  {
    var cuts := splits[0];
    var last := LastOfFirst(msgs, splits);
    assert IsPiece(cuts, |cuts| - 2, last.off, last.len);
    if AllArrived(cuts, 0, acc) {
      assert Arrived(cuts, 0, |cuts| - 2, acc);
      var sl :| sl in acc && sl.i == 0 && IsPiece(cuts, |cuts| - 2, sl.off, sl.len);
      assert sl == last;
    }
  }

  lemma AllArriveForFirst(msgs: seq<Sent>, splits: seq<seq<nat>>, acc: set<Slice>)
    requires Splits(msgs, splits) && msgs != [] && AllPieces(msgs, splits) <= acc
    ensures AllArrived(splits[0], 0, acc)
  {
    var cuts := splits[0];
    CutsRise(cuts, |msgs[0].body|);
    forall k | 0 <= k < |cuts| - 1 ensures Arrived(cuts, 0, k, acc) {
      assert Rises(cuts, k);
      var sl := PieceOf(cuts, 0, k);
      assert IsPiece(cuts, k, sl.off, sl.len);
      InAllPieces(msgs, splits, sl);
    }
  }

  lemma AppendNew(others: seq<Slice>, x: Slice, n: nat)
    requires NoneTwice(others) && x !in SliceSet(others) && n <= |others|
    ensures NoneTwice(others + [x]) && SliceSet(others + [x]) == SliceSet(others) + {x}
    ensures x !in SliceSet((others + [x])[..n])
  {
    assert (others + [x])[..n] == others[..n];
  }

  /** An order of all pieces in which the first `n` leave message 0 incomplete: its last piece comes last. */
  lemma BadOrder(msgs: seq<Sent>, splits: seq<seq<nat>>, n: nat) returns (list: seq<Slice>)
    requires Splits(msgs, splits) && msgs != [] && PieceCount(splits) > n
    ensures |list| > n && NoneTwice(list) && SliceSet(list) == AllPieces(msgs, splits)
    ensures ArePieces(splits, list) && !AllArrived(splits[0], 0, SliceSet(list[..n]))
  {
    var all, last := AllPieces(msgs, splits), LastOfFirst(msgs, splits);
    AllPiecesTotals(msgs, splits);
    LastIsNeeded(msgs, splits, {});
    InAllPieces(msgs, splits, last);
    var others := ListOfSet(all - {last});
    AppendNew(others, last, n);
    list := others + [last];
    LastIsNeeded(msgs, splits, SliceSet(list[..n]));
    forall k | 0 <= k < |list| ensures FromSplit(splits, list[k]) {
      assert list[k] in SliceSet(list);
      InAllPieces(msgs, splits, list[k]);
    }
  }

  /** Every piece is small enough to travel alone in a record of `limit` bytes. */
  predicate PiecesWithin(splits: seq<seq<nat>>, limit: nat) {
    forall i, k :: 0 <= i < |splits| && 0 <= k < |splits[i]| - 1 ==> PieceWithin(splits[i], k, limit)
  }

  predicate PieceWithin(cuts: seq<nat>, k: nat, limit: nat)
    requires k + 1 < |cuts|
  {
    25 + cuts[k + 1] - cuts[k] <= limit
  }

  lemma ListWithin(msgs: seq<Sent>, splits: seq<seq<nat>>, list: seq<Slice>, limit: nat)
    requires ValidMessages(msgs) && Splits(msgs, splits) && ArePieces(splits, list) && PiecesWithin(splits, limit)
    ensures ValidNetwork(msgs, splits, Singly(msgs, list)) && RecordsWithin(msgs, Singly(msgs, list), limit)
    ensures forall k :: 0 <= k < |list| ==> 25 + list[k].len <= limit
  {
    SinglyValid(msgs, splits, list);
    forall k | 0 <= k < |list|
      ensures 25 + list[k].len <= limit && |RecordBytes(msgs, Singly(msgs, list)[k])| <= limit
    {
      var sl := list[k];
      var j :| 0 <= j < |splits[sl.i]| - 1 && IsPiece(splits[sl.i], j, sl.off, sl.len);
      assert PieceWithin(splits[sl.i], j, limit);
      PieceIsValid(msgs, splits, sl);
      AloneLength(msgs, sl);
    }
  }

  lemma SinglySplit(msgs: seq<Sent>, list: seq<Slice>, n: nat)
    requires (forall k :: 0 <= k < |list| ==> list[k].i < |msgs|) && n <= |list|
    ensures Singly(msgs, list) == Singly(msgs, list[..n]) + Singly(msgs, list[n..])
  {
  }

  lemma PrefixPieces(splits: seq<seq<nat>>, list: seq<Slice>, n: nat)
    requires n <= |list| && ArePieces(splits, list) && NoneTwice(list)
    ensures ArePieces(splits, list[..n]) && ArePieces(splits, list[n..]) && NoneTwice(list[..n])
  {
  }

  /** Pieces that arrive singly, the first 1000 of which wedge the buffer. */
  lemma WedgedThroughout(msgs: seq<Sent>, splits: seq<seq<nat>>, list: seq<Slice>, n: nat, limit: nat)
    requires ValidMessages(msgs) && Splits(msgs, splits) && msgs != [] && ArePieces(splits, list) && NoneTwice(list)
    requires BodyBytes(msgs) + limit < FRAGMENT_BUFFER_MAX_SIZE
    requires forall k :: 0 <= k < |list| ==> 25 + list[k].len <= limit
    requires n == FRAGMENT_BUFFER_MAX_COUNT <= |list| && !AllArrived(splits[0], 0, SliceSet(list[..n]))
    ensures ValidNetwork(msgs, splits, Singly(msgs, list))
    ensures var r := Receive(msgs, Singly(msgs, list)); Wedged(r) && r.delivered == []
  {
    PrefixPieces(splits, list, n);
    SinglyWedges(msgs, splits, list[..n], limit);
    SinglyValid(msgs, splits, list[n..]);
    var first, rest := Singly(msgs, list[..n]), Singly(msgs, list[n..]);
    StaysWedged(msgs, first, rest, Receive(msgs, first));
    SinglySplit(msgs, list, n);
    SinglyValid(msgs, splits, list);
  }

  /** More than 1000 pieces: each arriving once, alone in its record, in some order, all of them arrive and nothing is
      ever delivered, whatever follows. */
  lemma NeverDelivered(msgs: seq<Sent>, splits: seq<seq<nat>>, limit: nat) returns (events: seq<NetEvent>)
    requires ValidMessages(msgs) && Splits(msgs, splits) && msgs != []
    requires BodyBytes(msgs) + limit < FRAGMENT_BUFFER_MAX_SIZE && PiecesWithin(splits, limit)
    requires PieceCount(splits) > FRAGMENT_BUFFER_MAX_COUNT
    ensures ValidNetwork(msgs, splits, events) && RecordsWithin(msgs, events, limit)
    ensures ArrivedSlices(events) == AllPieces(msgs, splits)
    ensures var r := Receive(msgs, events); Wedged(r) && r.delivered == []
  {
    var list := BadOrder(msgs, splits, FRAGMENT_BUFFER_MAX_COUNT);
    ListWithin(msgs, splits, list, limit);
    WedgedThroughout(msgs, splits, list, FRAGMENT_BUFFER_MAX_COUNT, limit);
    events := Singly(msgs, list);
    SinglyArrives(msgs, splits, list);
    IdealArrived(splits, events);
  }

  ghost predicate EveryNetworkDelivers(msgs: seq<Sent>, splits: seq<seq<nat>>, limit: nat) {
    forall events :: ValidNetwork(msgs, splits, events) && RecordsWithin(msgs, events, limit) ==>
      DeliversWhatArrived(msgs, splits, events)
  }

  lemma WedgedDeliversNothing(msgs: seq<Sent>, splits: seq<seq<nat>>, events: seq<NetEvent>)
    requires ValidNetwork(msgs, splits, events) && msgs != [] && AllPieces(msgs, splits) <= ArrivedSlices(events)
    requires var r := Receive(msgs, events); Wedged(r) && r.delivered == []
    ensures !DeliversWhatArrived(msgs, splits, events)
  {
    AllArriveForFirst(msgs, splits, ArrivedSlices(events));
  }

  /** For messages whose bodies leave room for one record: over every network run pop delivers the next message
      exactly when all its pieces have arrived, if and only if there are at most 1000 pieces in all. */
  lemma EveryNetworkDeliversIff(msgs: seq<Sent>, splits: seq<seq<nat>>, limit: nat)
    requires ValidMessages(msgs) && Splits(msgs, splits) && msgs != []
    requires BodyBytes(msgs) + limit < FRAGMENT_BUFFER_MAX_SIZE && PiecesWithin(splits, limit)
    ensures EveryNetworkDelivers(msgs, splits, limit) <==> PieceCount(splits) <= FRAGMENT_BUFFER_MAX_COUNT
  {
    if PieceCount(splits) <= FRAGMENT_BUFFER_MAX_COUNT {
      forall events | ValidNetwork(msgs, splits, events) && RecordsWithin(msgs, events, limit)
        ensures DeliversWhatArrived(msgs, splits, events)
      {
        RoomyDelivers(msgs, splits, events, limit);
      }
    } else {
      var events := NeverDelivered(msgs, splits, limit);
      WedgedDeliversNothing(msgs, splits, events);
    }
  }

  // ---------- For every MTU ----------

  function MtuSplits(msgs: seq<Sent>, mtu: nat): seq<seq<nat>>
    requires mtu > 0
  {
    seq(|msgs|, i requires 0 <= i < |msgs| => CutsOf(Pieces(msgs[i].body, mtu)))
  }

  lemma MtuSplitsCut(msgs: seq<Sent>, mtu: nat)
    requires mtu > 0
    ensures Splits(msgs, MtuSplits(msgs, mtu)) && PiecesWithin(MtuSplits(msgs, mtu), 25 + mtu)
  {
    var splits, limit := MtuSplits(msgs, mtu), 25 + mtu;
    forall i | 0 <= i < |msgs| ensures Cuts(splits[i], |msgs[i].body|) { MtuSplitCuts(msgs[i].body, mtu); }
    forall i, k | 0 <= i < |splits| && 0 <= k < |splits[i]| - 1 ensures PieceWithin(splits[i], k, limit) {
      MtuPiece(msgs[i].body, mtu, k);
      PiecesAreOneSplit(msgs[i].body, mtu);
    }
  }

  /** What fragmentHandshake sends at any MTU. */
  lemma EveryMtuDeliversIff(msgs: seq<Sent>, mtu: nat, limit: nat)
    requires ValidMessages(msgs) && msgs != [] && mtu > 0 && 25 + mtu <= limit
    requires BodyBytes(msgs) + limit < FRAGMENT_BUFFER_MAX_SIZE
    ensures Splits(msgs, MtuSplits(msgs, mtu))
    ensures EveryNetworkDelivers(msgs, MtuSplits(msgs, mtu), limit) <==>
            PieceCount(MtuSplits(msgs, mtu)) <= FRAGMENT_BUFFER_MAX_COUNT
  {
    MtuSplitsCut(msgs, mtu);
    var splits := MtuSplits(msgs, mtu);
    assert PiecesWithin(splits, limit) by {
      forall i, k | 0 <= i < |splits| && 0 <= k < |splits[i]| - 1 ensures PieceWithin(splits[i], k, limit) {
        assert PieceWithin(splits[i], k, 25 + mtu);
      }
    }
    EveryNetworkDeliversIff(msgs, splits, limit);
  }

  lemma {:induction false} PartsBound(parts: seq<seq<byte>>, m: nat)
    requires forall k :: 0 <= k < |parts| ==> |parts[k]| <= m
    ensures |Concat(parts)| <= m * |parts|
  {
    if parts != [] {
      PartsBound(parts[1..], m);
      assert m * |parts| == m + m * (|parts| - 1);
    }
  }

  lemma TimesMonotone(m: nat, a: nat, b: nat)
    ensures a <= b ==> m * a <= m * b
  {
  }

  lemma ManyPieces(body: seq<byte>, mtu: nat, n: nat)
    requires mtu > 0 && |body| > mtu * n
    ensures |Pieces(body, mtu)| > n
  {
    PiecesAreOneSplit(body, mtu);
    PartsBound(Pieces(body, mtu), mtu);
    TimesMonotone(mtu, |Pieces(body, mtu)|, n);
  }

  lemma OneMessage(m: Sent, mtu: nat)
    requires mtu > 0
    ensures BodyBytes([m]) == |m.body| && PieceCount(MtuSplits([m], mtu)) == |Pieces(m.body, mtu)|
  {
    var msgs, splits := [m], MtuSplits([m], mtu);
    assert msgs[..0] == [] && splits[..0] == [];
    assert BodyBytes(msgs) == BodyBytes([]) + |m.body|;
    assert PieceCount(splits) == PieceCount([]) + |splits[0]| - 1;
  }

  /** A message longer than 1000 MTUs is one that some network never delivers. */
  lemma LongMessageCanBeLost(m: Sent, mtu: nat, limit: nat)
    requires mtu > 0 && 25 + mtu <= limit && |m.body| + limit < FRAGMENT_BUFFER_MAX_SIZE
    requires |m.body| > mtu * FRAGMENT_BUFFER_MAX_COUNT
    ensures !EveryNetworkDelivers([m], MtuSplits([m], mtu), limit)
  {
    OneMessage(m, mtu);
    ManyPieces(m.body, mtu, FRAGMENT_BUFFER_MAX_COUNT);
    EveryMtuDeliversIff([m], mtu, limit);
  }

  /** For one: 1001 bytes at an MTU of 1. */
  lemma ShortestLostMessage()
    ensures var m := Sent(1, 0, seq(1001, _ => 0)); !EveryNetworkDelivers([m], MtuSplits([m], 1), 26)
  {
    LongMessageCanBeLost(Sent(1, 0, seq(1001, _ => 0)), 1, 26);
  }
}
