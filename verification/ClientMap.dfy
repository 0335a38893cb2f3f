/** The map of live clients to send queues (common/turbotunnel/clientmap.go): an expiry heap with an index
    by address, refining a plain map from address to last-seen time and queue. */
module ClientMap {
  import HeapOrder

  /** A send queue, as far as closing it goes: closing twice panics. */
  class Channel {
    var closed: bool

    constructor ()
      ensures !closed
    {
      closed := false;
    }

    method Close()
      requires !closed
      modifies this
      ensures closed
    {
      closed := true;
    }
  }

  datatype Record<A> = Record(addr: A, lastSeen: int, queue: Channel)

  function Seen<A>(r: Record<A>): int {
    r.lastSeen
  }

  /** What the structure stands for. */
  datatype Client = Client(lastSeen: int, queue: Channel)

  /** The index is the exact inverse of the heap's addresses. */
  ghost predicate Inverse<A>(byAge: seq<Record<A>>, byAddr: map<A, nat>) {
    && |byAge| == |byAddr|
    && (forall i :: 0 <= i < |byAge| ==> byAge[i].addr in byAddr && byAddr[byAge[i].addr] == i)
    && (forall a :: a in byAddr ==> byAddr[a] < |byAge| && byAge[byAddr[a]].addr == a)
  }

  ghost function Clients<A>(byAge: seq<Record<A>>, byAddr: map<A, nat>): map<A, Client>
    requires Inverse(byAge, byAddr)
  {
    map a | a in byAddr :: Client(byAge[byAddr[a]].lastSeen, byAge[byAddr[a]].queue)
  }

  /** Every queue is open and belongs to one client only. */
  ghost predicate Open<A>(m: map<A, Client>)
    reads set a | a in m :: m[a].queue
  {
    && (forall a :: a in m ==> !m[a].queue.closed)
    && (forall a, b :: a in m && b in m && a != b ==> m[a].queue != m[b].queue)
  }

  predicate Expired(c: Client, now: int, timeout: int) {
    now - c.lastSeen >= timeout
  }

  ghost function Live<A>(m: map<A, Client>, now: int, timeout: int): map<A, Client> {
    map a | a in m && !Expired(m[a], now, timeout) :: m[a]
  }

  lemma OnlyLiveLeft<A>(m: map<A, Client>, was: map<A, Client>, now: int, timeout: int)
    requires forall a :: a in m ==> a in was && m[a] == was[a] && !Expired(was[a], now, timeout)
    requires forall a :: a in was && a !in m ==> Expired(was[a], now, timeout)
    ensures m == Live(was, now, timeout)
  {
  }

  lemma AppendKeeps<A>(byAge: seq<Record<A>>, byAddr: map<A, nat>, record: Record<A>)
    requires Inverse(byAge, byAddr) && record.addr !in byAddr
    ensures var byAge', byAddr' := byAge + [record], byAddr[record.addr := |byAge|];
            && Inverse(byAge', byAddr')
            && Clients(byAge', byAddr') == Clients(byAge, byAddr)[record.addr := Client(record.lastSeen, record.queue)]
  {
  }

  lemma SwapKeeps<A>(byAge: seq<Record<A>>, byAddr: map<A, nat>, i: nat, j: nat)
    requires Inverse(byAge, byAddr) && i < |byAge| && j < |byAge|
    ensures var byAge' := HeapOrder.Swap(byAge, i, j);
            var byAddr' := byAddr[byAge'[i].addr := i][byAge'[j].addr := j];
            Inverse(byAge', byAddr') && Clients(byAge', byAddr') == Clients(byAge, byAddr)
  {
    var byAge' := HeapOrder.Swap(byAge, i, j);
    var byAddr' := byAddr[byAge'[i].addr := i][byAge'[j].addr := j];
    assert byAddr'.Keys == byAddr.Keys;
    assert Inverse(byAge', byAddr');
    forall a | a in byAddr ensures byAge'[byAddr'[a]] == byAge[byAddr[a]] {}
  }

  lemma CutKeeps<A>(byAge: seq<Record<A>>, byAddr: map<A, nat>)
    requires Inverse(byAge, byAddr) && byAge != []
    ensures var n, last := |byAge| - 1, byAge[|byAge| - 1];
            Inverse(byAge[..n], byAddr - {last.addr}) &&
            Clients(byAge[..n], byAddr - {last.addr}) == Clients(byAge, byAddr) - {last.addr}
  {
    var n, last := |byAge| - 1, byAge[|byAge| - 1];
    var byAddr' := byAddr - {last.addr};
    assert byAddr'.Keys == byAddr.Keys - {last.addr};
  }

  lemma TouchKeeps<A>(byAge: seq<Record<A>>, byAddr: map<A, nat>, i: nat, now: int)
    requires Inverse(byAge, byAddr) && i < |byAge|
    ensures var byAge' := byAge[i := byAge[i].(lastSeen := now)];
            Inverse(byAge', byAddr) &&
            Clients(byAge', byAddr) == Clients(byAge, byAddr)[byAge[i].addr := Client(now, byAge[i].queue)]
  {
  }

  class Inner<A(==)> {
    var byAge: seq<Record<A>>
    var byAddr: map<A, nat>

    ghost predicate Consistent()
      reads this
    {
      Inverse(byAge, byAddr)
    }

    ghost function Model(): map<A, Client>
      reads this
      requires Consistent()
    {
      Clients(byAge, byAddr)
    }

    ghost predicate Valid()
      reads this, set i | 0 <= i < |byAge| :: byAge[i].queue
    {
      && Consistent()
      && HeapOrder.Heap(byAge, Seen, |byAge|)
      && Open(Model())
    }

    constructor ()
      ensures Valid() && Model() == map[]
    {
      byAge, byAddr := [], map[];
    }

    /** Len panics on an inconsistent map; Consistent rules that out. */
    method Len() returns (n: nat)
      requires |byAge| == |byAddr|
      ensures n == |byAge|
    {
      n := |byAge|;
    }

    method Swap(i: nat, j: nat)
      requires i < |byAge| && j < |byAge| && Consistent()
      modifies this
      ensures byAge == HeapOrder.Swap(old(byAge), i, j) && Consistent() && Model() == old(Model())
    {
      SwapKeeps(byAge, byAddr, i, j);
      byAge := byAge[i := byAge[j]][j := byAge[i]];
      byAddr := byAddr[byAge[i].addr := i];
      byAddr := byAddr[byAge[j].addr := j];
    }

    /** heap.up. */
    method Up(j0: nat)
      requires j0 < |byAge| && Consistent()
      modifies this
      ensures byAge == HeapOrder.Up(old(byAge), Seen, j0) && Consistent() && Model() == old(Model())
    {
      var j: nat := j0;
      while true
        invariant j < |byAge| && Consistent() && Model() == old(Model())
        invariant HeapOrder.Up(byAge, Seen, j) == HeapOrder.Up(old(byAge), Seen, j0)
        decreases j
      {
        var i := HeapOrder.Parent(j);
        if i == j || byAge[j].lastSeen >= byAge[i].lastSeen {
          break;
        }
        Swap(i, j);
        j := i;
      }
    }

    /** One round of heap.down's loop: the child to swap `i` with, or `i` itself to stop. */
    method NextDown(i: nat, n: nat) returns (j: nat)
      requires i < n <= |byAge|
      ensures j == if HeapOrder.DownStops(byAge, Seen, i, n) then i else HeapOrder.SmallerChild(byAge, Seen, i, n)
    {
      j := 2 * i + 1;
      if j >= n {
        return i;
      }
      if j + 1 < n && byAge[j + 1].lastSeen < byAge[j].lastSeen {
        j := j + 1;
      }
      if byAge[j].lastSeen >= byAge[i].lastSeen {
        return i;
      }
    }

    /** heap.down: whether anything moved. */
    method Down(i0: nat, n: nat) returns (moved: bool)
      requires i0 < n <= |byAge| && Consistent()
      modifies this
      ensures byAge == HeapOrder.Down(old(byAge), Seen, i0, n) && Consistent() && Model() == old(Model())
      ensures moved <==> !HeapOrder.DownStops(old(byAge), Seen, i0, n)
      ensures !moved ==> byAge == old(byAge)
    {
      var i := i0;
      var j := NextDown(i, n);
      while j != i
        invariant i0 <= i < n <= |byAge| && Consistent() && Model() == old(Model())
        invariant j == if HeapOrder.DownStops(byAge, Seen, i, n) then i else HeapOrder.SmallerChild(byAge, Seen, i, n)
        invariant HeapOrder.Down(byAge, Seen, i, n) == HeapOrder.Down(old(byAge), Seen, i0, n)
        invariant if i == i0 then byAge == old(byAge) else !HeapOrder.DownStops(old(byAge), Seen, i0, n)
        decreases n - i
      {
        Swap(i, j);
        i := j;
        j := NextDown(i, n);
      }
      moved := i > i0;
    }

    method Fix(i: nat, n: nat)
      requires i < n <= |byAge| && Consistent()
      modifies this
      ensures byAge == HeapOrder.Fix(old(byAge), Seen, i, n) && Consistent() && Model() == old(Model())
    {
      var moved := Down(i, n);
      if !moved {
        Up(i);
      }
    }
  
    /** clientMapInner.Push: appending panics on a known address. */
    method Append(record: Record<A>)
      requires Consistent() && record.addr !in byAddr
      modifies this
      ensures Consistent() && byAge == old(byAge) + [record]
      ensures Model() == old(Model())[record.addr := Client(record.lastSeen, record.queue)]
    {
      AppendKeeps(byAge, byAddr, record);
      byAddr := byAddr[record.addr := |byAge|];
      byAge := byAge + [record];
    }

    /** clientMapInner.Pop: drop the last record and close its queue. */
    method CutLast() returns (record: Record<A>)
      requires Consistent() && byAge != [] && !byAge[|byAge| - 1].queue.closed
      modifies this, byAge[|byAge| - 1].queue
      ensures record == old(byAge[|byAge| - 1]) && record.queue.closed
      ensures Consistent() && byAge == old(byAge)[..|old(byAge)| - 1]
      ensures Model() == old(Model()) - {record.addr}
    {
      CutKeeps(byAge, byAddr);
      var n := |byAddr|;
      record := byAge[n - 1];
      byAge := byAge[..n - 1];
      byAddr := byAddr - {record.addr};
      record.queue.Close();
    }

    /** heap.Push. */
    method PushRecord(record: Record<A>)
      requires Consistent() && HeapOrder.Heap(byAge, Seen, |byAge|) && record.addr !in byAddr
      modifies this
      ensures Consistent() && byAge == HeapOrder.Push(old(byAge), Seen, record)
      ensures Model() == old(Model())[record.addr := Client(record.lastSeen, record.queue)]
    {
      Append(record);
      var n := Len();
      Up(n - 1);
    }

    ghost predicate Ordered()
      reads this
    {
      Consistent() && HeapOrder.Heap(byAge, Seen, |byAge|)
    }

    /** SendQueue's first branch: update LastSeen, heap.Fix. */
    method Touch(i: nat, now: int) returns (queue: Channel)
      requires Ordered() && i < |byAge|
      modifies this
      ensures Ordered() && queue == old(byAge)[i].queue
      ensures Model() == old(Model())[old(byAge)[i].addr := Client(now, queue)]
    {
      TouchKeeps(byAge, byAddr, i, now);
      HeapOrder.ChangeOne(byAge, Seen, i, byAge[i].(lastSeen := now));
      byAge := byAge[i := byAge[i].(lastSeen := now)];
      queue := byAge[i].queue;
      HeapOrder.FixHeap(byAge, Seen, i, |byAge|);
      Fix(i, |byAge|);
    }

    /** SendQueue's second branch: a new record, heap.Push. */
    method Create(addr: A, now: int) returns (queue: Channel)
      requires Ordered() && addr !in byAddr
      modifies this
      ensures Ordered() && fresh(queue) && !queue.closed
      ensures Model() == old(Model())[addr := Client(now, queue)]
    {
      queue := new Channel();
      var record := Record(addr, now, queue);
      HeapOrder.PushHeap(byAge, Seen, record);
      PushRecord(record);
    }

    /** SendQueue: a known client is touched and keeps its queue; an unknown one gets a new open queue. */
    method SendQueue(addr: A, now: int) returns (queue: Channel)
      requires Valid()
      modifies this
      ensures Valid()
      ensures Model() == old(Model())[addr := Client(now, queue)]
      ensures if addr in old(Model()) then queue == old(Model())[addr].queue else fresh(queue)
    {
      if addr in byAddr {
        assert addr in Model();
        queue := Touch(byAddr[addr], now);
      } else {
        queue := Create(addr, now);
      }
    }

    /** heap.Pop up to the cut: the oldest record moved to the end, the rest repaired. */
    method MoveOldestToEnd()
      requires Consistent() && byAge != []
      modifies this
      ensures byAge == HeapOrder.MoveLast(old(byAge), Seen, 0) && Consistent() && Model() == old(Model())
    {
      var n := Len();
      n := n - 1;
      Swap(0, n);
      if n > 0 {
        var moved := Down(0, n);
      }
    }

    /** heap.Pop: out goes a client seen longest ago, and its queue is closed. */
    method PopOldest() returns (record: Record<A>)
      requires Valid() && byAge != []
      modifies this, byAge[0].queue
      ensures Valid() && record == old(byAge)[0] && record.queue.closed
      ensures record.addr in old(Model()) && Model() == old(Model()) - {record.addr}
      ensures |byAge| == |old(byAge)| - 1
    {
      HeapOrder.MoveLastHeap(byAge, Seen, 0);
      HeapOrder.RemoveHeap(byAge, Seen, 0);
      ghost var m := Model();
      ghost var oldest := byAge[0];
      assert m[oldest.addr].queue == oldest.queue;
      MoveOldestToEnd();
      assert byAge[|byAge| - 1] == oldest;
      record := CutLast();
      assert Ordered();
      assert Open(m - {oldest.addr});
    }
  
    /** The loop's exit: the client at the root is the one seen longest ago. */
    lemma NoneExpired(now: int, timeout: int)
      requires Valid() && (byAge == [] || now - byAge[0].lastSeen < timeout)
      ensures forall a :: a in Model() ==> !Expired(Model()[a], now, timeout)
    {
      forall a | a in Model() ensures !Expired(Model()[a], now, timeout) {
        HeapOrder.RootIsMin(byAge, Seen, |byAge|, byAddr[a]);
      }
    }

    /** removeExpired: exactly the clients whose last sighting is at least `timeout` ago go, and exactly
        their queues are closed. */
    method RemoveExpired(now: int, timeout: int)
      requires Valid()
      modifies this, set i | 0 <= i < |byAge| :: byAge[i].queue
      ensures Valid()
      ensures Model() == Live(old(Model()), now, timeout)
      ensures forall a :: a in old(Model()) ==> (old(Model())[a].queue.closed <==> a !in Model())
    {
      ghost var was := Model();
      assert forall i :: 0 <= i < |byAge| ==> was[byAge[i].addr].queue == byAge[i].queue;
      while |byAge| > 0 && now - byAge[0].lastSeen >= timeout
        invariant Valid()
        invariant forall a :: a in Model() ==> a in was && Model()[a] == was[a]
        invariant forall a :: a in was && a !in Model() ==> Expired(was[a], now, timeout) && was[a].queue.closed
        decreases |byAge|
      {
        assert was[byAge[0].addr] == Client(byAge[0].lastSeen, byAge[0].queue) by {
          assert byAge[0].addr in Model();
        }
        var gone := PopOldest();
      }
      NoneExpired(now, timeout);
      OnlyLiveLeft(Model(), was, now, timeout);
    }
  }
}
