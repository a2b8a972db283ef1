/** The binary heap of arlib/heap.h, and the sort of arlib/array.h that uses it. */
module HeapSort {
  import opened StableSort

  function Parent(c: nat): (p: nat)
    requires c > 0
    ensures p < c && (c == 2 * p + 1 || c == 2 * p + 2)
  {
    (c - 1) / 2
  }

  /** The heap invariant for the nodes from i on. */
  predicate HeapFrom<T>(s: seq<T>, i: nat, less: (T, T) -> bool) {
    forall c :: 0 < c < |s| && i <= Parent(c) ==> !less(s[c], s[Parent(c)])
  }

  predicate Heap<T>(s: seq<T>, less: (T, T) -> bool) {
    HeapFrom(s, 0, less)
  }

  /** The invariant except at node j, whose children are still in order with its parent. */
  predicate HeapBut<T>(s: seq<T>, i: nat, j: nat, less: (T, T) -> bool) {
    && (forall c :: 0 < c < |s| && i <= Parent(c) && Parent(c) != j ==> !less(s[c], s[Parent(c)]))
    && (forall c :: 0 < c < |s| && Parent(c) == j && j > 0 && i <= Parent(j) < |s| ==> !less(s[c], s[Parent(j)]))
  }

  lemma SwapMultiset<T>(s: seq<T>, i: nat, j: nat)
    requires i < |s| && j < |s|
    ensures multiset(s[i := s[j]][j := s[i]]) == multiset(s)
  {
  }

  /** Nothing is below the root. */
  lemma {:induction false} RootFirst<T(!new)>(s: seq<T>, less: (T, T) -> bool, k: nat)
    requires Order(less) && Heap(s, less) && k < |s|
    ensures !less(s[k], s[0])
  {
    if k > 0 {
      RootFirst(s, less, Parent(k));
    }
  }

  /** One step of sifting down. */
  lemma SiftStep<T(!new)>(s: seq<T>, i: nat, j: nat, m: nat, less: (T, T) -> bool)
    requires Order(less) && i <= j < |s| && HeapBut(s, i, j, less) && 0 < m < |s| && Parent(m) == j && less(s[m], s[j])
    requires forall c :: 0 < c < |s| && Parent(c) == j ==> !less(s[c], s[m])
    ensures HeapBut(s[j := s[m]][m := s[j]], i, m, less)
  {
    var t := s[j := s[m]][m := s[j]];
    forall c | 0 < c < |t| && i <= Parent(c) && Parent(c) != m
      ensures !less(t[c], t[Parent(c)])
    {
      if Parent(c) == j {
        assert t[Parent(c)] == s[m];
        assert c == m ==> t[c] == s[j];
      } else if c == j {
        assert t[c] == s[m];
      }
    }
  }

  /** The inner loop of heapify. */
  method SiftDown<T(!new)>(body: array<T>, len: nat, i: nat, less: (T, T) -> bool)
    requires Order(less) && i < len <= body.Length && HeapFrom(body[..len], i + 1, less)
    modifies body
    ensures HeapFrom(body[..len], i, less)
    ensures multiset(body[..len]) == old(multiset(body[..len])) && body[len..] == old(body[len..])
  {
    Unsettled(body[..len], i, less);
    hide *;
    var j := i;
    while true
      invariant i <= j < len && HeapBut(body[..len], i, j, less)
      invariant multiset(body[..len]) == old(multiset(body[..len])) && body[len..] == old(body[len..])
      decreases len - j
    {
      if 2 * j + 2 >= len {
        LastChild(body, len, i, j, less);
        return;
      }
      var min := if less(body[2 * j + 1], body[2 * j + 2]) then 2 * j + 1 else 2 * j + 2;
      Smaller(body[..len], j, less);
      assert min == 2 * j + 1 || min == 2 * j + 2;
      if !less(body[min], body[j]) {
        NotBelow(body[..len], j, min, less);
        Settled(body[..len], i, j, less);
        return;
      }
      SwapDown(body, len, i, j, min, less);
      j := min;
    }
  }

  /** A node with at most one child. */
  method LastChild<T(!new)>(body: array<T>, len: nat, i: nat, j: nat, less: (T, T) -> bool)
    requires Order(less) && i <= j < len <= body.Length && HeapBut(body[..len], i, j, less) && 2 * j + 2 >= len
    modifies body
    ensures HeapFrom(body[..len], i, less)
    ensures multiset(body[..len]) == old(multiset(body[..len])) && body[len..] == old(body[len..])
  {
    hide HeapBut, Order, HeapFrom;
    if 2 * j + 1 < len {
      if less(body[2 * j + 1], body[j]) {
        OnlyChild(body[..len], j, less);
        SwapDown(body, len, i, j, 2 * j + 1, less);
        Childless(body[..len], i, 2 * j + 1, less);
        return;
      }
    }
    Settled(body[..len], i, j, less);
  }

  lemma Unsettled<T(!new)>(s: seq<T>, i: nat, less: (T, T) -> bool)
    requires HeapFrom(s, i + 1, less)
    ensures HeapBut(s, i, i, less)
  {
  }

  lemma Smaller<T(!new)>(s: seq<T>, j: nat, less: (T, T) -> bool)
    requires Order(less) && 2 * j + 2 < |s|
    ensures var m := if less(s[2 * j + 1], s[2 * j + 2]) then 2 * j + 1 else 2 * j + 2;
      forall c :: 0 < c < |s| && Parent(c) == j ==> !less(s[c], s[m])
  {
  }

  lemma OnlyChild<T(!new)>(s: seq<T>, j: nat, less: (T, T) -> bool)
    requires Order(less) && 2 * j + 1 == |s| - 1
    ensures forall c :: 0 < c < |s| && Parent(c) == j ==> !less(s[c], s[2 * j + 1])
  {
  }

  lemma NotBelow<T(!new)>(s: seq<T>, j: nat, m: nat, less: (T, T) -> bool)
    requires Order(less) && j < |s| && m < |s| && !less(s[m], s[j])
    requires forall c :: 0 < c < |s| && Parent(c) == j ==> !less(s[c], s[m])
    ensures forall c :: 0 < c < |s| && Parent(c) == j ==> !less(s[c], s[j])
  {
  }

  lemma Settled<T(!new)>(s: seq<T>, i: nat, j: nat, less: (T, T) -> bool)
    requires HeapBut(s, i, j, less) && j < |s| && forall c :: 0 < c < |s| && Parent(c) == j ==> !less(s[c], s[j])
    ensures HeapFrom(s, i, less)
  {
  }

  lemma Childless<T(!new)>(s: seq<T>, i: nat, j: nat, less: (T, T) -> bool)
    requires HeapBut(s, i, j, less) && 2 * j + 1 >= |s|
    ensures HeapFrom(s, i, less)
  {
  }

  method SwapDown<T(!new)>(body: array<T>, len: nat, i: nat, j: nat, m: nat, less: (T, T) -> bool)
    requires Order(less) && i <= j < len <= body.Length && HeapBut(body[..len], i, j, less) && 0 < m < len && Parent(m) == j
    requires less(body[m], body[j]) && forall c :: 0 < c < len && Parent(c) == j ==> !less(body[c], body[m])
    modifies body
    ensures HeapBut(body[..len], i, m, less)
    ensures multiset(body[..len]) == old(multiset(body[..len])) && body[len..] == old(body[len..])
  {
    ghost var s := body[..len];
    SiftStep(s, i, j, m, less);
    SwapMultiset(s, j, m);
    hide HeapBut, Order;
    body[m], body[j] := body[j], body[m];
    assert body[..len] == s[j := s[m]][m := s[j]];
  }

  /** heapify */
  method Heapify<T(!new)>(body: array<T>, len: nat, less: (T, T) -> bool)
    requires Order(less) && len <= body.Length
    modifies body
    ensures Heap(body[..len], less)
    ensures multiset(body[..len]) == old(multiset(body[..len])) && body[len..] == old(body[len..])
  {
    if len <= 1 {
      return;
    }
    var i: nat := Parent(len - 1);
    while true
      invariant i < len && HeapFrom(body[..len], i + 1, less)
      invariant multiset(body[..len]) == old(multiset(body[..len])) && body[len..] == old(body[len..])
      decreases i
    {
      SiftDown(body, len, i, less);
      if i == 0 {
        break;
      }
      i := i - 1;
    }
  }

  /** Moves a child up into the hole. x is what will fill the hole in the end. */
  lemma HoleDown<T(!new)>(s: seq<T>, x: T, p: nat, c: nat)
    requires 0 < c < |s| && Parent(c) == p
    ensures multiset(s[p := s[c]][c := x]) == multiset(s[p := x])
  {
    var t := s[p := x];
    SwapMultiset(t, p, c);
    assert t[p := t[c]][c := t[p]] == s[p := s[c]][c := x];
  }

  /** The move keeps the invariant, the hole being a copy of what was there. */
  lemma HoleHeap<T(!new)>(s: seq<T>, p: nat, c: nat, less: (T, T) -> bool)
    requires Order(less) && Heap(s, less) && 0 < c < |s| && Parent(c) == p
    requires forall d :: 0 < d < |s| && Parent(d) == p ==> !less(s[d], s[c])
    ensures Heap(s[p := s[c]], less)
  {
    var t := s[p := s[c]];
    forall d | 0 < d < |t|
      ensures !less(t[d], t[Parent(d)])
    {
      if d == p {
        assert !less(s[p], s[Parent(p)]) && !less(s[c], s[p]);
      } else if Parent(d) == p {
        assert t[d] == s[d];
      }
    }
  }

  /** One round of the loop of pop. */
  lemma Sunk<T(!new)>(s: seq<T>, x: T, p: nat, c: nat, less: (T, T) -> bool)
    requires Order(less) && Heap(s, less) && p < |s| && 2 * p + 1 <= c <= 2 * p + 2 && c < |s| && !less(x, s[c])
    requires forall d :: 0 < d < |s| && Parent(d) == p ==> !less(s[d], s[c])
    ensures var t := s[p := s[c]];
      Heap(t, less) && multiset(t[c := x]) == multiset(s[p := x]) && !less(x, t[Parent(c)])
  {
    HoleDown(s, x, p, c);
    HoleHeap(s, p, c, less);
    hide Order, Heap;
  }

  /** Filling the hole. */
  lemma Fill<T(!new)>(s: seq<T>, x: T, p: nat, less: (T, T) -> bool)
    requires Order(less) && Heap(s, less) && p < |s|
    requires p > 0 ==> !less(x, s[Parent(p)])
    requires forall d :: 0 < d < |s| && Parent(d) == p ==> !less(s[d], x)
    ensures Heap(s[p := x], less)
  {
  }

  /** pop: the root comes out, and what was last fills the hole that has sunk. */
  method Pop<T(!new)>(body: array<T>, len: nat, less: (T, T) -> bool) returns (ret: T)
    requires Order(less) && 0 < len <= body.Length && Heap(body[..len], less)
    modifies body
    ensures ret == old(body[0]) && Heap(body[..len - 1], less)
    ensures multiset(body[..len - 1]) + multiset{ret} == old(multiset(body[..len]))
    ensures body[len..] == old(body[len..])
  {
    hide *;
    ret := body[0];
    var n := len - 1;
    ghost var front, x := body[..n], body[n];
    assert body[..len] == front + [x];
    if n == 0 {
      LastOne(front, x, less);
      return;
    }
    PopStart(front, x);
    KeepHeap(front, x, less);
    ghost var rest := body[n..];
    var p := SinkHole(body, n, x, less);
    Move(body, n, p, n);
    assert body[len..] == body[n..][1..] == rest[1..];
  }

  lemma LastOne<T(!new)>(front: seq<T>, x: T, less: (T, T) -> bool)
    requires |front| == 0
    ensures Heap(front, less) && multiset(front) + multiset{x} == multiset(front + [x])
  {
  }

  /** Taking the root out and the last element into its place. */
  lemma PopStart<T>(front: seq<T>, x: T)
    requires 0 < |front|
    ensures multiset(front[0 := x]) + multiset{front[0]} == multiset(front + [x])
  {
    var s, n := front + [x], |front|;
    assert front[0 := x] + [front[0]] == s[0 := s[n]][n := s[0]];
    SwapMultiset(s, 0, n);
    assert multiset(front[0 := x] + [front[0]]) == multiset(front[0 := x]) + multiset{front[0]};
  }

  lemma KeepHeap<T(!new)>(front: seq<T>, x: T, less: (T, T) -> bool)
    requires Heap(front + [x], less)
    ensures Heap(front, less)
  {
    forall c | 0 < c < |front|
      ensures !less(front[c], front[Parent(c)])
    {
      assert (front + [x])[c] == front[c] && (front + [x])[Parent(c)] == front[Parent(c)];
    }
  }

  /** The loop of pop. */
  method SinkHole<T(!new)>(body: array<T>, n: nat, ghost x: T, less: (T, T) -> bool) returns (p: nat)
    requires Order(less) && 0 < n < body.Length && Heap(body[..n], less) && x == body[n]
    modifies body
    ensures p < n && Heap(body[..n][p := x], less)
    ensures multiset(body[..n][p := x]) == multiset(old(body[..n])[0 := x]) && body[n..] == old(body[n..])
  {
    hide *;
    p := 0;
    ghost var s := body[..n];
    ghost var all := multiset(s[0 := x]);
    while true
      invariant p < n && s == body[..n] && Heap(s, less) && body[n] == x && body[n..] == old(body[n..])
      invariant multiset(s[p := x]) == all
      invariant p > 0 ==> !less(x, s[Parent(p)])
      decreases n - p
    {
      if 2 * p + 1 >= n {
        Fill(s, x, p, less);
        break;
      }
      var child := FirstChild(body, n, p, less);
      if less(body[n], body[child]) {
        Above(s, x, p, child, less);
        Fill(s, x, p, less);
        break;
      }
      Sunk(s, x, p, child, less);
      s := s[p := s[child]];
      Move(body, n, p, child);
      p := child;
    }
  }

  /** The child that belongs before the other. */
  method FirstChild<T(!new)>(body: array<T>, n: nat, p: nat, less: (T, T) -> bool) returns (child: nat)
    requires Order(less) && 2 * p + 1 < n < body.Length
    ensures 2 * p + 1 <= child <= 2 * p + 2 && child < n
    ensures forall d :: 0 < d < n && Parent(d) == p ==> !less(body[..n][d], body[..n][child])
  {
    child := 2 * p + 1;
    if child + 1 < n && less(body[child + 1], body[child]) {
      child := child + 1;
    }
    SmallerChild(body[..n], p, child, less);
  }

  /** move(body, dst, src), dst being below n */
  method Move<T(!new)>(body: array<T>, n: nat, dst: nat, src: nat)
    requires dst < n < body.Length && src < body.Length
    modifies body
    ensures body[..n] == old(body[..n])[dst := old(body[src])] && body[n..] == old(body[n..]) && body[n] == old(body[n])
  {
    body[dst] := body[src];
  }

  lemma SmallerChild<T(!new)>(s: seq<T>, p: nat, child: nat, less: (T, T) -> bool)
    requires Order(less) && 2 * p + 1 <= child <= 2 * p + 2 && child < |s|
    requires child == 2 * p + 1 && 2 * p + 2 < |s| ==> !less(s[2 * p + 2], s[child])
    requires child == 2 * p + 2 ==> less(s[child], s[2 * p + 1])
    ensures forall d :: 0 < d < |s| && Parent(d) == p ==> !less(s[d], s[child])
  {
  }

  lemma Above<T(!new)>(s: seq<T>, x: T, p: nat, child: nat, less: (T, T) -> bool)
    requires Order(less) && child < |s| && less(x, s[child])
    requires forall d :: 0 < d < |s| && Parent(d) == p ==> !less(s[d], s[child])
    ensures forall d :: 0 < d < |s| && Parent(d) == p ==> !less(s[d], x)
  {
  }

  // ----- sort -----

  function Flip<T>(less: (T, T) -> bool): (T, T) -> bool {
    (x, y) => less(y, x)
  }

  lemma FlipOrder<T(!new)>(less: (T, T) -> bool)
    requires Order(less)
    ensures Order(Flip(less))
  {
    var g := Flip(less);
    forall x, y, z | !g(x, y) && !g(y, z)
      ensures !g(x, z)
    {
      assert !less(y, x) && !less(z, y);
    }
  }

  lemma {:induction false} Adjacent<T(!new)>(s: seq<T>, less: (T, T) -> bool)
    requires Order(less) && forall i :: 0 <= i < |s| - 1 ==> !less(s[i + 1], s[i])
    ensures Sorted(s, less)
  {
    if |s| > 1 {
      var r := s[..|s| - 1];
      Adjacent(r, less);
      forall i, j | 0 <= i < j < |s|
        ensures !less(s[j], s[i])
      {
        if j == |s| - 1 && i < j - 1 {
          assert !less(r[j - 1], r[i]) && !less(s[j], s[j - 1]);
        } else if j < |s| - 1 {
          assert !less(r[j], r[i]);
        }
      }
    }
  }

  method CheckSorted<T(!new)>(items: array<T>, less: (T, T) -> bool) returns (sorted: bool)
    requires Order(less)
    ensures sorted <==> Sorted(items[..], less)
  {
    var i := 0;
    while true
      invariant 0 <= i <= items.Length && forall k :: 0 <= k < i && k + 1 < items.Length ==> !less(items[k + 1], items[k])
      decreases items.Length - i
    {
      if i + 1 >= items.Length {
        Adjacent(items[..], less);
        return true;
      }
      if less(items[i + 1], items[i]) {
        assert less(items[..][i + 1], items[..][i]);
        return false;
      }
      i := i + 1;
    }
  }

  /** The part from r on is sorted and nothing in it is below anything before. */
  predicate Finished<T>(s: seq<T>, r: nat, less: (T, T) -> bool) {
    r <= |s| && Sorted(s[r..], less) && forall i, j :: 0 <= i < r <= j < |s| ==> !less(s[j], s[i])
  }

  /** The highest of the first r, moved behind them, joins the finished part. */
  lemma OneMore<T(!new)>(s: seq<T>, front: seq<T>, r: nat, x: T, less: (T, T) -> bool)
    requires Order(less) && 0 < r && Finished(s, r, less)
    requires |front| == r - 1 && multiset(front) + multiset{x} == multiset(s[..r])
    requires forall y :: y in s[..r] ==> !less(x, y)
    ensures Finished(front + [x] + s[r..], r - 1, less)
  {
    forall y | y in front
      ensures !less(x, y) && forall j :: 0 <= j < |s[r..]| ==> !less(s[r..][j], y)
    {
      Among(front, x, s[..r], y);
      forall j | 0 <= j < |s[r..]|
        ensures !less(s[r..][j], y)
      {
        InFront(s, r, y, r + j, less);
      }
    }
    assert x in multiset(s[..r]);
    InFrontAll(s, r, x, less);
    hide Order, Finished;
    OnlySorted(s, r, less);
    Joined(front, x, s[r..], less);
  }

  lemma Among<T>(front: seq<T>, x: T, whole: seq<T>, y: T)
    requires multiset(front) + multiset{x} == multiset(whole) && y in front
    ensures y in whole && y in multiset(whole)
  {
    assert y in multiset(front);
    assert y in multiset(whole);
  }

  lemma OnlySorted<T>(s: seq<T>, r: nat, less: (T, T) -> bool)
    requires Finished(s, r, less)
    ensures Sorted(s[r..], less)
  {
  }

  lemma Joined<T(!new)>(front: seq<T>, x: T, back: seq<T>, less: (T, T) -> bool)
    requires Sorted(back, less) && forall z :: z in back ==> !less(z, x)
    requires forall y :: y in front ==> !less(x, y) && forall j :: 0 <= j < |back| ==> !less(back[j], y)
    ensures Finished(front + [x] + back, |front|, less)
  {
    var t, k := front + [x] + back, |front|;
    assert t[k..] == [x] + back;
    forall i, j | 0 <= i < k <= j < |t|
      ensures !less(t[j], t[i])
    {
      assert t[i] == front[i] && front[i] in front;
      if j > k {
        assert t[j] == back[j - k - 1] && !less(back[j - k - 1], front[i]);
      }
    }
  }

  lemma InFront<T>(s: seq<T>, r: nat, y: T, j: nat, less: (T, T) -> bool)
    requires Finished(s, r, less) && y in multiset(s[..r]) && r <= j < |s|
    ensures !less(s[j], y)
  {
    assert y in s[..r];
    var i :| 0 <= i < r && s[..r][i] == y;
    assert s[i] == y;
  }

  lemma InFrontAll<T>(s: seq<T>, r: nat, x: T, less: (T, T) -> bool)
    requires Finished(s, r, less) && x in multiset(s[..r])
    ensures forall y :: y in s[r..] ==> !less(y, x)
  {
    forall y | y in s[r..]
      ensures !less(y, x)
    {
      var k :| 0 <= k < |s[r..]| && s[r..][k] == y;
      InFront(s, r, x, r + k, less);
    }
  }

  /** sort */
  method Sort<T(!new)>(items: array<T>, less: (T, T) -> bool)
    requires Order(less)
    modifies items
    ensures Sorted(items[..], less) && multiset(items[..]) == old(multiset(items[..]))
  {
    var done := CheckSorted(items, less);
    if done {
      return;
    }
    var n := items.Length;
    FlipOrder(less);
    assert items[..n] == items[..];
    Heapify(items, n, Flip(less));
    assert items[..n] == items[..];
    var remaining := n;
    while remaining > 0
      invariant remaining <= n && Heap(items[..remaining], Flip(less)) && Finished(items[..], remaining, less)
      invariant multiset(items[..]) == old(multiset(items[..]))
    {
      TakeHighest(items, remaining, less);
      remaining := remaining - 1;
    }
    assert items[..] == items[..][0..];
  }

  /** One round of the loop of sort. */
  method TakeHighest<T(!new)>(items: array<T>, r: nat, less: (T, T) -> bool)
    requires Order(less) && 0 < r <= items.Length && Heap(items[..r], Flip(less)) && Finished(items[..], r, less)
    modifies items
    ensures Heap(items[..r - 1], Flip(less)) && Finished(items[..], r - 1, less)
    ensures multiset(items[..]) == old(multiset(items[..]))
  {
    hide *;
    ghost var s := items[..];
    FlipOrder(less);
    Highest(items[..r], less);
    var tmp := Pop(items, r, Flip(less));
    ghost var front := items[..r - 1];
    assert items[r..] == s[r..];
    items[r - 1] := tmp;
    assert items[..r - 1] == front && s[..r] + s[r..] == s;
    assert items[..] == front + [tmp] + s[r..];
    OneMore(s, front, r, tmp, less);
    Recount(front, tmp, s[..r], s[r..]);
  }

  lemma Recount<T>(front: seq<T>, x: T, head: seq<T>, back: seq<T>)
    requires multiset(front) + multiset{x} == multiset(head)
    ensures multiset(front + [x] + back) == multiset(head + back)
  {
  }

  lemma Highest<T(!new)>(s: seq<T>, less: (T, T) -> bool)
    requires Order(less) && |s| > 0 && Heap(s, Flip(less))
    ensures forall y :: y in s ==> !less(s[0], y)
  {
    FlipOrder(less);
    forall k | 0 <= k < |s|
      ensures !less(s[0], s[k])
    {
      RootFirst(s, Flip(less), k);
    }
  }
}
