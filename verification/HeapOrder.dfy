/** container/heap on a sequence: the sift operations as values, and what they do to any list of elements
    ordered by an integer key. The two heaps of the repository are proved against these. */
module HeapOrder {
  function Parent(j: nat): nat {
    if j == 0 then 0 else (j - 1) / 2
  }

  function Swap<T>(s: seq<T>, i: nat, j: nat): (r: seq<T>)
    requires i < |s| && j < |s|
    ensures |r| == |s|
  {
    s[i := s[j]][j := s[i]]
  }

  /** heap.up. */
  function Up<T>(s: seq<T>, key: T -> int, j: nat): (r: seq<T>)
    requires j < |s|
    ensures |r| == |s|
    decreases j
  {
    if j == 0 || key(s[j]) >= key(s[Parent(j)]) then s else Up(Swap(s, Parent(j), j), key, Parent(j))
  }

  /** The child heap.down compares with, among the first `n` elements. */
  function SmallerChild<T>(s: seq<T>, key: T -> int, i: nat, n: nat): (j: nat)
    requires 2 * i + 1 < n <= |s|
    ensures i < j < n && Parent(j) == i
  {
    if 2 * i + 2 < n && key(s[2 * i + 2]) < key(s[2 * i + 1]) then 2 * i + 2 else 2 * i + 1
  }

  predicate DownStops<T>(s: seq<T>, key: T -> int, i: nat, n: nat)
    requires i < n <= |s|
  {
    2 * i + 1 >= n || key(s[SmallerChild(s, key, i, n)]) >= key(s[i])
  }

  /** heap.down on the first `n` elements. */
  function Down<T>(s: seq<T>, key: T -> int, i: nat, n: nat): (r: seq<T>)
    requires i < n <= |s|
    ensures |r| == |s|
    decreases n - i
  {
    if DownStops(s, key, i, n) then s
    else var j := SmallerChild(s, key, i, n); Down(Swap(s, i, j), key, j, n)
  }

  /** heap.Fix on the first `n` elements: down, or else up. heap.down reports a move exactly when it does
      not stop at once. */
  function Fix<T>(s: seq<T>, key: T -> int, i: nat, n: nat): (r: seq<T>)
    requires i < n <= |s|
    ensures |r| == |s|
  {
    if DownStops(s, key, i, n) then Up(s, key, i) else Down(s, key, i, n)
  }

  /** heap.Push. */
  function Push<T>(s: seq<T>, key: T -> int, x: T): (r: seq<T>) {
    Up(s + [x], key, |s|)
  }

  /** heap.Remove, which is also heap.Pop when `i` is 0, before the last element is cut off. */
  function MoveLast<T>(s: seq<T>, key: T -> int, i: nat): (r: seq<T>)
    requires i < |s|
    ensures |r| == |s|
  {
    var n := |s| - 1;
    if i == n then s else Fix(Swap(s, i, n), key, i, n)
  }

  function Remove<T>(s: seq<T>, key: T -> int, i: nat): (r: seq<T>)
    requires i < |s|
    ensures |r| == |s| - 1
  {
    MoveLast(s, key, i)[..|s| - 1]
  }

  /** Element `c` is not smaller than its parent. */
  predicate Ordered<T>(s: seq<T>, key: T -> int, c: nat)
    requires c < |s|
  {
    key(s[Parent(c)]) <= key(s[c])
  }

  /** The first `n` elements form a min-heap. */
  predicate Heap<T>(s: seq<T>, key: T -> int, n: nat)
    requires n <= |s|
  {
    forall c :: 0 < c < n ==> Ordered(s, key, c)
  }

  /** The children of `i` are not smaller than the parent of `i`. */
  predicate Bridged<T>(s: seq<T>, key: T -> int, i: nat, n: nat)
    requires i < n <= |s|
  {
    forall c :: 0 < i < c < n && Parent(c) == i ==> key(s[Parent(i)]) <= key(s[c])
  }

  /** A heap except that `i` may be smaller than its parent. */
  predicate SmallAt<T>(s: seq<T>, key: T -> int, i: nat, n: nat)
    requires i < n <= |s|
  {
    (forall c :: 0 < c < n && c != i ==> Ordered(s, key, c)) && Bridged(s, key, i, n)
  }

  /** A heap except that `i` may be larger than its children. */
  predicate LargeAt<T>(s: seq<T>, key: T -> int, i: nat, n: nat)
    requires i < n <= |s|
  {
    (forall c :: 0 < c < n && Parent(c) != i ==> Ordered(s, key, c)) && Bridged(s, key, i, n)
  }

  /** A heap except around `i`, in either direction. */
  predicate ChangedAt<T>(s: seq<T>, key: T -> int, i: nat, n: nat)
    requires i < n <= |s|
  {
    (forall c :: 0 < c < n && c != i && Parent(c) != i ==> Ordered(s, key, c)) && Bridged(s, key, i, n)
  }

  lemma SwapUp<T>(s: seq<T>, key: T -> int, j: nat, n: nat)
    requires 0 < j < n <= |s| && SmallAt(s, key, j, n) && key(s[j]) < key(s[Parent(j)])
    ensures SmallAt(Swap(s, Parent(j), j), key, Parent(j), n)
  {
    var i, s' := Parent(j), Swap(s, Parent(j), j);
    assert i > 0 ==> Ordered(s, key, i);
    forall c | 0 < c < n && c != i ensures Ordered(s', key, c) {
      if c != j { assert Ordered(s, key, c); }
    }
    forall c | 0 < i < c < n && Parent(c) == i ensures key(s'[Parent(i)]) <= key(s'[c]) {
      if c != j { assert Ordered(s, key, c); }
    }
  }

  lemma {:induction false} UpHeap<T>(s: seq<T>, key: T -> int, j: nat, n: nat)
    requires j < n <= |s| && SmallAt(s, key, j, n)
    ensures Heap(Up(s, key, j), key, n) && Up(s, key, j)[n..] == s[n..]
    decreases j
  {
    if j != 0 && key(s[j]) < key(s[Parent(j)]) {
      SwapUp(s, key, j, n);
      UpHeap(Swap(s, Parent(j), j), key, Parent(j), n);
    } else {
      forall c | 0 < c < n ensures Ordered(s, key, c) { if c != j { assert Ordered(s, key, c); } }
    }
  }

  /** One swap downwards leaves only the child's own children in doubt, even if `i` was too small before. */
  lemma SwapDown<T>(s: seq<T>, key: T -> int, i: nat, n: nat)
    requires i < n <= |s| && ChangedAt(s, key, i, n) && !DownStops(s, key, i, n)
    ensures var j := SmallerChild(s, key, i, n); LargeAt(Swap(s, i, j), key, j, n)
  {
    var j := SmallerChild(s, key, i, n);
    var s' := Swap(s, i, j);
    forall c | 0 < c < n && Parent(c) != j ensures Ordered(s', key, c) {
      if c == i {
        assert key(s[Parent(i)]) <= key(s[j]);
      } else if Parent(c) == i {
        assert c == 2 * i + 1 || c == 2 * i + 2;
      } else {
        assert Ordered(s, key, c);
      }
    }
    forall c | j < c < n && Parent(c) == j ensures key(s'[Parent(j)]) <= key(s'[c]) {
      assert Ordered(s, key, c);
    }
  }

  lemma {:induction false} DownHeap<T>(s: seq<T>, key: T -> int, i: nat, n: nat)
    requires i < n <= |s| && LargeAt(s, key, i, n)
    ensures Heap(Down(s, key, i, n), key, n) && Down(s, key, i, n)[n..] == s[n..]
    decreases n - i
  {
    if DownStops(s, key, i, n) {
      forall c | 0 < c < n ensures Ordered(s, key, c) {
        if Parent(c) == i { assert c == 2 * i + 1 || c == 2 * i + 2; } else { assert Ordered(s, key, c); }
      }
    } else {
      SwapDown(s, key, i, n);
      var j := SmallerChild(s, key, i, n);
      DownHeap(Swap(s, i, j), key, j, n);
      assert Swap(s, i, j)[n..] == s[n..];
    }
  }

  lemma FixHeap<T>(s: seq<T>, key: T -> int, i: nat, n: nat)
    requires i < n <= |s| && ChangedAt(s, key, i, n)
    ensures Heap(Fix(s, key, i, n), key, n) && Fix(s, key, i, n)[n..] == s[n..]
  {
    if DownStops(s, key, i, n) {
      forall c | 0 < c < n && c != i ensures Ordered(s, key, c) {
        if Parent(c) == i { assert c == 2 * i + 1 || c == 2 * i + 2; } else { assert Ordered(s, key, c); }
      }
      UpHeap(s, key, i, n);
    } else {
      SwapDown(s, key, i, n);
      var j := SmallerChild(s, key, i, n);
      DownHeap(Swap(s, i, j), key, j, n);
      assert Swap(s, i, j)[n..] == s[n..];
    }
  }

  lemma {:induction false} UpPermutes<T>(s: seq<T>, key: T -> int, j: nat)
    requires j < |s|
    ensures multiset(Up(s, key, j)) == multiset(s)
    decreases j
  {
    if j != 0 && key(s[j]) < key(s[Parent(j)]) {
      UpPermutes(Swap(s, Parent(j), j), key, Parent(j));
    }
  }

  lemma {:induction false} DownPermutes<T>(s: seq<T>, key: T -> int, i: nat, n: nat)
    requires i < n <= |s|
    ensures multiset(Down(s, key, i, n)) == multiset(s)
    decreases n - i
  {
    if !DownStops(s, key, i, n) {
      var j := SmallerChild(s, key, i, n);
      DownPermutes(Swap(s, i, j), key, j, n);
    }
  }

  lemma {:induction false} RootIsMin<T>(s: seq<T>, key: T -> int, n: nat, i: nat)
    requires i < n <= |s| && Heap(s, key, n)
    ensures key(s[0]) <= key(s[i])
  {
    if i > 0 {
      assert Ordered(s, key, i);
      RootIsMin(s, key, n, Parent(i));
    }
  }

  lemma PushHeap<T>(s: seq<T>, key: T -> int, x: T)
    requires Heap(s, key, |s|)
    ensures Heap(Push(s, key, x), key, |s| + 1) && multiset(Push(s, key, x)) == multiset(s) + multiset{x}
  {
    var s' := s + [x];
    forall c | 0 < c < |s'| && c != |s| ensures Ordered(s', key, c) { assert Ordered(s, key, c); }
    UpHeap(s', key, |s|, |s'|);
    UpPermutes(s', key, |s|);
  }

  /** Changing the key of one element of a heap disturbs it only there. */
  lemma ChangeOne<T>(s: seq<T>, key: T -> int, i: nat, x: T)
    requires i < |s| && Heap(s, key, |s|)
    ensures ChangedAt(s[i := x], key, i, |s|)
  {
    var s' := s[i := x];
    forall c | 0 < c < |s| && c != i && Parent(c) != i ensures Ordered(s', key, c) { assert Ordered(s, key, c); }
    forall c | 0 < i < c < |s| && Parent(c) == i ensures key(s'[Parent(i)]) <= key(s'[c]) {
      assert Ordered(s, key, c) && Ordered(s, key, i);
    }
  }

  /** Before the cut, the heap is the first part and the element to go is last. */
  lemma MoveLastHeap<T>(s: seq<T>, key: T -> int, i: nat)
    requires i < |s| && Heap(s, key, |s|)
    ensures var r := MoveLast(s, key, i);
            Heap(r, key, |s| - 1) && r[|s| - 1] == s[i] && multiset(r) == multiset(s)
  {
    var n := |s| - 1;
    if i < n {
      var s' := Swap(s, i, n);
      RemoveChanged(s, key, i);
      FixHeap(s', key, i, n);
      assert s'[n..][0] == MoveLast(s, key, i)[n..][0];
      if DownStops(s', key, i, n) { UpPermutes(s', key, i); } else { DownPermutes(s', key, i, n); }
    }
  }

  lemma CutLast<T>(r: seq<T>, key: T -> int)
    requires r != [] && Heap(r, key, |r| - 1)
    ensures Heap(r[..|r| - 1], key, |r| - 1) && multiset(r[..|r| - 1]) == multiset(r) - multiset{r[|r| - 1]}
  {
    var n := |r| - 1;
    assert r == r[..n] + [r[n]];
    forall c | 0 < c < n ensures Ordered(r[..n], key, c) { assert Ordered(r, key, c); }
  }

  /** Removal takes out exactly element `i` and leaves a heap of the others. */
  lemma RemoveHeap<T>(s: seq<T>, key: T -> int, i: nat)
    requires i < |s| && Heap(s, key, |s|)
    ensures Heap(Remove(s, key, i), key, |s| - 1)
    ensures multiset(Remove(s, key, i)) == multiset(s) - multiset{s[i]}
  {
    MoveLastHeap(s, key, i);
    CutLast(MoveLast(s, key, i), key);
  }

  lemma RemoveChanged<T>(s: seq<T>, key: T -> int, i: nat)
    requires i < |s| - 1 && Heap(s, key, |s|)
    ensures ChangedAt(Swap(s, i, |s| - 1), key, i, |s| - 1)
  {
    var n, s' := |s| - 1, Swap(s, i, |s| - 1);
    forall c | 0 < c < n && c != i && Parent(c) != i ensures Ordered(s', key, c) { assert Ordered(s, key, c); }
    forall c | 0 < i < c < n && Parent(c) == i ensures key(s'[Parent(i)]) <= key(s'[c]) {
      assert Ordered(s, key, c) && Ordered(s, key, i);
    }
  }
}
