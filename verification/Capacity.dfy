/** The bounds of the fragment buffer (dtls/fragment_buffer.go) against a receiver without bounds: when every piece
    that arrives is kept, and what happens when one is not. */
module Capacity {
  import opened Bytes
  import opened FragmentBuffer
  import opened FragmentAccounting
  import opened Reassembly
  import opened Delivery

  // ---------- A receiver without bounds ----------

  /** Every slice that arrived, whether or not the buffer took it. */
  function ArrivedSlices(events: seq<NetEvent>): set<Slice> {
    if events == [] then {}
    else
      var e := events[|events| - 1];
      ArrivedSlices(events[..|events| - 1]) + if e.Record? then SliceSet(e.slices) else {}
  }

  /** The next message to deliver and the slices that arrived. */
  datatype Ideal = Ideal(next: nat, arrived: set<Slice>)

  ghost function IdealStep(splits: seq<seq<nat>>, d: Ideal, e: NetEvent): Ideal {
    match e
    case Record(_, _, slices) => d.(arrived := d.arrived + SliceSet(slices))
    case TakeMessage =>
      if d.next < |splits| && AllArrived(splits[d.next], d.next, d.arrived) then d.(next := d.next + 1) else d
  }

  ghost function IdealRun(splits: seq<seq<nat>>, events: seq<NetEvent>): Ideal {
    if events == [] then Ideal(0, {})
    else IdealStep(splits, IdealRun(splits, events[..|events| - 1]), events[|events| - 1])
  }

  lemma {:induction false} IdealArrived(splits: seq<seq<nat>>, events: seq<NetEvent>)
    ensures IdealRun(splits, events).arrived == ArrivedSlices(events)
  {
    if events != [] { IdealArrived(splits, events[..|events| - 1]); }
  }

  /** The slices of messages still to be delivered. */
  function Waiting(d: Ideal): set<Slice> {
    set sl | sl in d.arrived && d.next <= sl.i
  }

  // ---------- Bytes of a set of slices ----------

  ghost function Weight(s: set<Slice>): nat {
    if s == {} then 0
    else
      var x :| x in s;
      x.len + Weight(s - {x})
  }

  lemma {:induction false} WeightSplit(s: set<Slice>, x: Slice)
    requires x in s
    ensures Weight(s) == x.len + Weight(s - {x})
    decreases |s|
  {
    var y :| y in s && Weight(s) == y.len + Weight(s - {y});
    if y != x {
      WeightSplit(s - {y}, x);
      WeightSplit(s - {x}, y);
      assert s - {y} - {x} == s - {x} - {y};
    }
  }

  lemma WeightOne(s: set<Slice>, x: Slice)
    requires x !in s
    ensures Weight(s + {x}) == Weight(s) + x.len && |s + {x}| == |s| + 1
  {
    WeightSplit(s + {x}, x);
    assert s + {x} - {x} == s;
  }

  lemma {:induction false} WeightUnion(a: set<Slice>, b: set<Slice>)
    requires a !! b
    ensures Weight(a + b) == Weight(a) + Weight(b) && |a + b| == |a| + |b|
    decreases |b|
  {
    if b == {} {
      assert a + b == a;
    } else {
      var x :| x in b;
      WeightUnion(a, b - {x});
      WeightSplit(b, x);
      WeightOne(a + (b - {x}), x);
      assert a + (b - {x}) + {x} == a + b;
    }
  }

  lemma WeightSubset(a: set<Slice>, b: set<Slice>)
    requires a <= b
    ensures Weight(a) <= Weight(b) && |a| <= |b| && (a != b ==> |a| < |b|)
  {
    WeightUnion(a, b - a);
    assert a + (b - a) == b;
    if a != b {
      var x :| x in b - a;
      assert b - a != {};
    }
  }

  // ---------- The buffer's counters in terms of slices ----------

  function EntrySlices(i: u16, m: map<u32, Fragment>): set<Slice> {
    set o | o in m :: Slice(i, o, |m[o].data|)
  }

  ghost predicate EntryAddsUp(i: u16, m: map<u32, Fragment>) {
    |EntrySlices(i, m)| == |m| && Weight(EntrySlices(i, m)) == Sum(m, DataLength)
  }

  lemma EntryWithout(i: u16, m: map<u32, Fragment>, o: u32)
    requires o in m
    ensures EntrySlices(i, m) == EntrySlices(i, m - {o}) + {Slice(i, o, |m[o].data|)}
    ensures Slice(i, o, |m[o].data|) !in EntrySlices(i, m - {o}) && |m| == |m - {o}| + 1
  {
    var m' := m - {o};
    forall x | x in EntrySlices(i, m) ensures x in EntrySlices(i, m') + {Slice(i, o, |m[o].data|)} {
      var p :| p in m && x == Slice(i, p, |m[p].data|);
      if p != o { assert p in m' && m'[p] == m[p]; }
    }
    assert m'.Keys == m.Keys - {o};
  }

  lemma EntryOneMore(i: u16, m: map<u32, Fragment>, o: u32)
    requires o in m && EntryAddsUp(i, m - {o})
    ensures EntryAddsUp(i, m)
  {
    SumSplit(m, DataLength, o);
    EntryWithout(i, m, o);
    WeightOne(EntrySlices(i, m - {o}), Slice(i, o, |m[o].data|));
  }

  lemma {:induction false} EntryTotals(i: u16, m: map<u32, Fragment>)
    ensures EntryAddsUp(i, m)
    decreases |m|
  {
    if m.Keys == {} {
      assert EntrySlices(i, m) == {} && |m| == 0;
    } else {
      var o :| o in m.Keys;
      EntryWithout(i, m, o);
      EntryTotals(i, m - {o});
      EntryOneMore(i, m, o);
    }
  }

  function HeldSlices(cache: map<u16, Fragments>): set<Slice> {
    set i, o | i in cache && o in cache[i].byOffset :: Slice(i, o, |cache[i].byOffset[o].data|)
  }

  lemma HeldWithout(cache: map<u16, Fragments>, k: u16)
    requires k in cache
    ensures HeldSlices(cache) == HeldSlices(cache - {k}) + EntrySlices(k, cache[k].byOffset)
    ensures HeldSlices(cache - {k}) !! EntrySlices(k, cache[k].byOffset)
  {
    forall x | x in HeldSlices(cache) ensures x in HeldSlices(cache - {k}) + EntrySlices(k, cache[k].byOffset) {
      var i, o :| i in cache && o in cache[i].byOffset && x == Slice(i, o, |cache[i].byOffset[o].data|);
      if i != k { assert i in cache - {k} && (cache - {k})[i] == cache[i]; }
    }
  }

  ghost predicate CacheAddsUp(cache: map<u16, Fragments>) {
    |HeldSlices(cache)| == Sum(cache, HeldCount) && Weight(HeldSlices(cache)) == Sum(cache, HeldLength)
  }

  lemma CacheOneMore(cache: map<u16, Fragments>, k: u16)
    requires k in cache && cache[k].fragmentsLength == Sum(cache[k].byOffset, DataLength) && CacheAddsUp(cache - {k})
    ensures CacheAddsUp(cache)
  {
    HeldWithout(cache, k);
    EntryTotals(k, cache[k].byOffset);
    WeightUnion(HeldSlices(cache - {k}), EntrySlices(k, cache[k].byOffset));
    SumSplit(cache, HeldCount, k);
    SumSplit(cache, HeldLength, k);
  }

  lemma {:induction false} CacheTotals(cache: map<u16, Fragments>)
    requires forall i :: i in cache ==> cache[i].fragmentsLength == Sum(cache[i].byOffset, DataLength)
    ensures CacheAddsUp(cache)
    decreases |cache|
  {
    if cache.Keys == {} {
      assert HeldSlices(cache) == {};
    } else {
      var k :| k in cache.Keys;
      assert (cache - {k}).Keys == cache.Keys - {k};
      CacheTotals(cache - {k});
      CacheOneMore(cache, k);
    }
  }

  lemma SamePiece(cuts: seq<nat>, n: nat, off: nat, a: nat, b: nat)
    requires Cuts(cuts, n) && SomePiece(cuts, off, a) && SomePiece(cuts, off, b)
    ensures a == b
  {
    var j :| 0 <= j < |cuts| - 1 && IsPiece(cuts, j, off, a);
    var k :| 0 <= k < |cuts| - 1 && IsPiece(cuts, k, off, b);
    if |cuts| > 2 {
      assert j == k;
    }
  }

  /** What the buffer holds is what arrived for the messages still to be delivered. */
  lemma HeldIsWaiting(msgs: seq<Sent>, splits: seq<seq<nat>>, s: State, acc: set<Slice>)
    requires Receiving(msgs, splits, s, acc)
    ensures HeldSlices(s.cache) == Waiting(Ideal(s.current, acc))
  {
    forall sl | sl in HeldSlices(s.cache) ensures sl in Waiting(Ideal(s.current, acc)) {
      var i, o :| i in s.cache && o in s.cache[i].byOffset && sl == Slice(i, o, |s.cache[i].byOffset[o].data|);
    }
    forall sl | sl in Waiting(Ideal(s.current, acc)) ensures sl in HeldSlices(s.cache) {
      assert sl.i in s.cache && sl.off in s.cache[sl.i].byOffset;
      var held := Slice(sl.i, sl.off, |s.cache[sl.i].byOffset[sl.off].data|);
      assert held in acc && FromSplit(splits, held) && FromSplit(splits, sl);
      SamePiece(splits[sl.i], |msgs[sl.i].body|, sl.off, sl.len, held.len);
    }
  }

  lemma CountersAreWaiting(msgs: seq<Sent>, splits: seq<seq<nat>>, s: State, acc: set<Slice>)
    requires Receiving(msgs, splits, s, acc)
    ensures s.count == |Waiting(Ideal(s.current, acc))| && s.size == Weight(Waiting(Ideal(s.current, acc)))
  {
    HeldIsWaiting(msgs, splits, s, acc);
    forall i | i in s.cache ensures s.cache[i].fragmentsLength == Sum(s.cache[i].byOffset, DataLength) {
      assert Booked(s.cache[i], i);
    }
    CacheTotals(s.cache);
  }
}
