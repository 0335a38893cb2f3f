/** The pool of waiting proxies (broker/snowflake-heap.go): a heap of snowflakes by number of clients, in
    which every snowflake knows its own position. */
module SnowflakePool {
  import HeapOrder

  class Snowflake {
    const id: string
    const proxyType: string
    const natType: string
    const clients: nat
    var index: int

    /** NewSnowflake: the index is 0 until the snowflake is pushed. */
    constructor (id: string, proxyType: string, natType: string, clients: nat)
      ensures this.id == id && this.proxyType == proxyType && this.natType == natType && this.clients == clients
      ensures index == 0
    {
      this.id, this.proxyType, this.natType, this.clients := id, proxyType, natType, clients;
      index := 0;
    }
  }

  function Clients(s: Snowflake): int {
    s.clients
  }

  /** Every snowflake's index is its position; in particular the snowflakes are distinct. */
  ghost predicate Indexed(h: seq<Snowflake>)
    reads h
  {
    forall i :: 0 <= i < |h| ==> h[i].index == i
  }

  ghost predicate Within(a: seq<Snowflake>, b: seq<Snowflake>) {
    forall k :: 0 <= k < |a| ==> a[k] in b
  }

  lemma SwapWithin(a: seq<Snowflake>, b: seq<Snowflake>, i: nat, j: nat)
    requires Within(a, b) && i < |a| && j < |a|
    ensures Within(HeapOrder.Swap(a, i, j), b)
  {
  }

  lemma SameMembers(a: seq<Snowflake>, b: seq<Snowflake>)
    requires multiset(a) == multiset(b)
    ensures forall x :: x in a <==> x in b
  {
    assert forall x :: x in a <==> x in multiset(a);
    assert forall x :: x in b <==> x in multiset(b);
  }

  lemma OneMore(a: seq<Snowflake>, b: seq<Snowflake>, s: Snowflake)
    requires multiset(b) == multiset(a) + multiset{s}
    ensures forall x :: x in b <==> x in a || x == s
  {
    assert forall x :: x in a <==> x in multiset(a);
    assert forall x :: x in b <==> x in multiset(b);
  }

  ghost function SetOf(h: seq<Snowflake>): set<Snowflake> {
    set s | s in h
  }

  /** What is left when the last of a rearranged list goes. */
  lemma CutLeaves(a: seq<Snowflake>, b: seq<Snowflake>, s: Snowflake)
    requires multiset(b) == multiset(a) && b != [] && b[|b| - 1] == s && s !in b[..|b| - 1]
    ensures SetOf(b[..|b| - 1]) == SetOf(a) - {s} && |b| == |a|
  {
    SameMembers(a, b);
    assert b == b[..|b| - 1] + [s];
    assert |multiset(b)| == |b| && |multiset(a)| == |a|;
  }

  class Pool {
    var h: seq<Snowflake>

    ghost predicate Valid()
      reads this, h
    {
      Indexed(h) && HeapOrder.Heap(h, Clients, |h|)
    }

    /** What the pool holds; as every index is its position, none twice. */
    ghost function Members(): (m: set<Snowflake>)
      reads this
    {
      SetOf(h)
    }

    constructor ()
      ensures Valid() && h == []
    {
      h := [];
    }

    /** SnowflakeHeap.Swap. */
    method Swap(i: nat, j: nat)
      requires i < |h| && j < |h| && Indexed(h)
      modifies this, h[i], h[j]
      ensures h == HeapOrder.Swap(old(h), i, j) && Indexed(h)
      ensures multiset(h) == multiset(old(h))
    {
      h := h[i := h[j]][j := h[i]];
      h[i].index := i;
      h[j].index := j;
    }

    /** heap.up. */
    method Up(j0: nat)
      requires j0 < |h| && Indexed(h)
      modifies this, h
      ensures h == HeapOrder.Up(old(h), Clients, j0) && Indexed(h)
      ensures multiset(h) == multiset(old(h))
    {
      var j: nat := j0;
      while true
        invariant j < |h| && Indexed(h)
        invariant multiset(h) == multiset(old(h))
        invariant HeapOrder.Up(h, Clients, j) == HeapOrder.Up(old(h), Clients, j0)
        decreases j
      {
        var i := HeapOrder.Parent(j);
        if i == j || h[j].clients >= h[i].clients {
          break;
        }
        SameMembers(h, old(h));
        assert h[i] in old(h) && h[j] in old(h);
        Swap(i, j);
        j := i;
      }
    }

    /** One look of heap.down: the child to swap with, or `i` to stop. */
    method NextDown(i: nat, n: nat) returns (j: nat)
      requires i < n <= |h|
      ensures j == if HeapOrder.DownStops(h, Clients, i, n) then i else HeapOrder.SmallerChild(h, Clients, i, n)
    {
      j := 2 * i + 1;
      if j >= n {
        return i;
      }
      if j + 1 < n && h[j + 1].clients < h[j].clients {
        j := j + 1;
      }
      if h[j].clients >= h[i].clients {
        return i;
      }
    }

    /** One move of heap.down. */
    method StepDown(i: nat, j: nat, ghost n: nat)
      requires i < n <= |h| && Indexed(h)
      requires !HeapOrder.DownStops(h, Clients, i, n) && j == HeapOrder.SmallerChild(h, Clients, i, n)
      modifies this, h[i], h[j]
      ensures h == HeapOrder.Swap(old(h), i, j) && Indexed(h)
      ensures HeapOrder.Down(h, Clients, j, n) == HeapOrder.Down(old(h), Clients, i, n)
    {
      Swap(i, j);
    }

    /** heap.down: whether anything moved. */
    method Down(i0: nat, n: nat) returns (moved: bool)
      requires i0 < n <= |h| && Indexed(h)
      modifies this, h
      ensures h == HeapOrder.Down(old(h), Clients, i0, n) && Indexed(h)
      ensures multiset(h) == multiset(old(h))
      ensures moved <==> !HeapOrder.DownStops(old(h), Clients, i0, n)
      ensures !moved ==> h == old(h)
    {
      ghost var goal := HeapOrder.Down(h, Clients, i0, n);
      ghost var stops := HeapOrder.DownStops(h, Clients, i0, n);
      HeapOrder.DownPermutes(h, Clients, i0, n);
      var i := i0;
      var j := NextDown(i, n);
      while j != i
        invariant i0 <= i < n <= |h| && Indexed(h) && Within(h, old(h))
        invariant j == if HeapOrder.DownStops(h, Clients, i, n) then i else HeapOrder.SmallerChild(h, Clients, i, n)
        invariant HeapOrder.Down(h, Clients, i, n) == goal
        invariant if i == i0 then h == old(h) else !stops
        decreases n - i
      {
        SwapWithin(h, old(h), i, j);
        StepDown(i, j, n);
        i := j;
        j := NextDown(i, n);
      }
      moved := i > i0;
    }

    /** heap.Fix on the first `n` snowflakes, as heap.Remove uses it. */
    method Fix(i: nat, n: nat)
      requires i < n <= |h| && Indexed(h)
      modifies this, h
      ensures h == HeapOrder.Fix(old(h), Clients, i, n) && Indexed(h)
      ensures multiset(h) == multiset(old(h))
    {
      var moved := Down(i, n);
      if !moved {
        Up(i);
      }
    }

    /** SnowflakeHeap.Pop: cut off the last snowflake and mark it as not pooled. */
    method CutLast() returns (s: Snowflake)
      requires h != [] && Indexed(h)
      modifies this, h[|h| - 1]
      ensures s == old(h[|h| - 1]) && h == old(h)[..|old(h)| - 1]
      ensures Indexed(h) && s.index == -1 && s !in h
    {
      var n := |h|;
      s := h[n - 1];
      s.index := -1;
      h := h[..n - 1];
    }

    /** SnowflakePool.Push. The source demands that a snowflake is pooled at most once. */
    method Push(s: Snowflake)
      requires Valid() && s !in h
      modifies this, h, s
      ensures Valid()
      ensures Members() == old(Members()) + {s} && |h| == |old(h)| + 1
    {
      HeapOrder.PushHeap(h, Clients, s);
      s.index := |h|;
      h := h + [s];
      Up(|h| - 1);
      OneMore(old(h), h, s);
    }

    /** SnowflakePool.Pop: nothing from an empty pool, else a snowflake with the fewest clients. */
    method Pop() returns (s: Snowflake?)
      requires Valid()
      modifies this, h
      ensures Valid()
      ensures s == null <==> old(h) == []
      ensures s == null ==> h == old(h)
      ensures s != null ==> s in old(Members()) && s.index == -1
      ensures s != null ==> Members() == old(Members()) - {s} && |h| == |old(h)| - 1
      ensures s != null ==> forall x :: x in old(Members()) ==> s.clients <= x.clients
    {
      if |h| == 0 {
        return null;
      }
      forall i | 0 <= i < |h| ensures h[0].clients <= h[i].clients {
        HeapOrder.RootIsMin(h, Clients, |h|, i);
      }
      s := TakeOut(0);
    }

    /** heap.Remove and heap.Pop up to the cut: snowflake `i` moved to the end, the rest repaired. */
    method MoveToEnd(i: nat)
      requires i < |h| && Indexed(h)
      modifies this, h
      ensures h == HeapOrder.MoveLast(old(h), Clients, i) && Indexed(h)
      ensures multiset(h) == multiset(old(h))
    {
      var n := |h| - 1;
      if n != i {
        Swap(i, n);
        SameMembers(h, old(h));
        Fix(i, n);
      }
    }

    method TakeOut(i: nat) returns (s: Snowflake)
      requires Valid() && i < |h|
      modifies this, h
      ensures Valid() && h == HeapOrder.Remove(old(h), Clients, i)
      ensures s == old(h)[i] && s.index == -1 && s !in h
      ensures Members() == old(Members()) - {s} && |h| == |old(h)| - 1
    {
      ghost var x, last := h[i], |h| - 1;
      ghost var moved := HeapOrder.MoveLast(h, Clients, i);
      assert moved[last] == x && multiset(moved) == multiset(h) by { HeapOrder.MoveLastHeap(h, Clients, i); }
      assert HeapOrder.Heap(moved[..last], Clients, last) by { HeapOrder.RemoveHeap(h, Clients, i); }
      MoveToEnd(i);
      s := CutLast();
      CutLeaves(old(h), moved, s);
    }

    /** SnowflakePool.Remove: whatever sits at the snowflake's index, which is the snowflake itself if it is in this
        pool; nothing if its index says that it is in none. An index past the pool's end panics. */
    method Remove(s: Snowflake)
      requires Valid() && (s.index == -1 || 0 <= s.index < |h|)
      modifies this, h
      ensures Valid()
      ensures old(s.index) == -1 ==> h == old(h) && s !in Members()
      ensures old(s.index) != -1 ==>
                var gone := old(h)[old(s.index)];
                && (gone == s <==> s in old(Members())) && gone.index == -1
                && Members() == old(Members()) - {gone} && |h| == |old(h)| - 1
    {
      if s.index != -1 {
        var gone := TakeOut(s.index);
      }
    }
  }
}
