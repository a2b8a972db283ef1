/** arrayvieww::ssort of arlib/array.h: an insertion sort that finds the place by galloping and bisection on
    unsigned indices that may wrap below zero. */
module StableSort {
  import opened Bits

  /** A strict weak order. */
  ghost predicate Order<T(!new)>(less: (T, T) -> bool) {
    && (forall x :: !less(x, x))
    && (forall x, y, z :: less(x, y) && less(y, z) ==> less(x, z))
    && (forall x, y, z :: !less(x, y) && !less(y, z) ==> !less(x, z))
  }

  predicate Sorted<T>(s: seq<T>, less: (T, T) -> bool) {
    forall i, j :: 0 <= i < j < |s| ==> !less(s[j], s[i])
  }

  /** s with x put behind everything that is not above it. */
  function Insert<T>(s: seq<T>, x: T, less: (T, T) -> bool): (r: seq<T>)
    ensures |r| == |s| + 1
  {
    if |s| > 0 && less(x, s[|s| - 1]) then Insert(s[..|s| - 1], x, less) + [s[|s| - 1]] else s + [x]
  }

  /** What the sort computes. */
  function Arranged<T>(s: seq<T>, less: (T, T) -> bool): (r: seq<T>)
    ensures |r| == |s|
  {
    if |s| == 0 then [] else Insert(Arranged(s[..|s| - 1], less), s[|s| - 1], less)
  }

  /** The elements equivalent to x, in order. */
  function Like<T>(s: seq<T>, x: T, less: (T, T) -> bool): seq<T> {
    if |s| == 0 then []
    else
      var rest, y := Like(s[..|s| - 1], x, less), s[|s| - 1];
      if !less(x, y) && !less(y, x) then rest + [y] else rest
  }

  lemma {:induction false} InsertSorted<T(!new)>(s: seq<T>, x: T, less: (T, T) -> bool)
    requires Order(less) && Sorted(s, less)
    ensures Sorted(Insert(s, x, less), less) && forall y :: y in Insert(s, x, less) ==> y in s || y == x
  {
    if |s| > 0 && less(x, s[|s| - 1]) {
      InsertSorted(s[..|s| - 1], x, less);
      var r, y := Insert(s[..|s| - 1], x, less), s[|s| - 1];
      assert forall z :: z in r ==> !less(y, z);
    }
  }

  lemma {:induction false} InsertLike<T(!new)>(s: seq<T>, x: T, y: T, less: (T, T) -> bool)
    requires Order(less)
    ensures Like(Insert(s, x, less), y, less) == Like(s + [x], y, less)
  {
    assert (s + [x])[..|s|] == s;
    if |s| > 0 && less(x, s[|s| - 1]) {
      var r, z := s[..|s| - 1], s[|s| - 1];
      InsertLike(r, x, y, less);
      assert (Insert(r, x, less) + [z])[..|s|] == Insert(r, x, less);
      assert (r + [x])[..|r|] == r;
    }
  }

  lemma {:induction false} InsertMultiset<T>(s: seq<T>, x: T, less: (T, T) -> bool)
    ensures multiset(Insert(s, x, less)) == multiset(s) + multiset{x}
  {
    if |s| > 0 && less(x, s[|s| - 1]) {
      InsertMultiset(s[..|s| - 1], x, less);
      assert s == s[..|s| - 1] + [s[|s| - 1]];
    }
  }

  /** The result is sorted. */
  lemma {:induction false} ArrangedSorted<T(!new)>(s: seq<T>, less: (T, T) -> bool)
    requires Order(less)
    ensures Sorted(Arranged(s, less), less)
  {
    if |s| > 0 {
      ArrangedSorted(s[..|s| - 1], less);
      InsertSorted(Arranged(s[..|s| - 1], less), s[|s| - 1], less);
    }
  }

  /** It has the same elements. */
  lemma {:induction false} ArrangedPermutation<T>(s: seq<T>, less: (T, T) -> bool)
    ensures multiset(Arranged(s, less)) == multiset(s)
  {
    if |s| > 0 {
      ArrangedPermutation(s[..|s| - 1], less);
      InsertMultiset(Arranged(s[..|s| - 1], less), s[|s| - 1], less);
      assert s == s[..|s| - 1] + [s[|s| - 1]];
    }
  }

  /** Equivalent elements keep their order. */
  lemma {:induction false} ArrangedStable<T(!new)>(s: seq<T>, y: T, less: (T, T) -> bool)
    requires Order(less)
    ensures Like(Arranged(s, less), y, less) == Like(s, y, less)
  {
    if |s| > 0 {
      var r := Arranged(s[..|s| - 1], less);
      ArrangedStable(s[..|s| - 1], y, less);
      InsertLike(r, s[|s| - 1], y, less);
      assert (r + [s[|s| - 1]])[..|r|] == r;
    }
  }

  // ----- the place to insert -----

  /** p is where x goes: nothing before it is above x, everything from it on is. */
  predicate Place<T>(s: seq<T>, x: T, p: nat, less: (T, T) -> bool) {
    p <= |s| && (forall i :: 0 <= i < p ==> !less(x, s[i])) && (forall i :: p <= i < |s| ==> less(x, s[i]))
  }

  lemma {:induction false} InsertAt<T>(s: seq<T>, x: T, p: nat, less: (T, T) -> bool)
    requires Place(s, x, p, less)
    ensures Insert(s, x, less) == s[..p] + [x] + s[p..]
  {
    if p < |s| {
      var r := s[..|s| - 1];
      InsertAt(r, x, p, less);
      assert r[..p] == s[..p] && s[p..] == r[p..] + [s[|s| - 1]];
    }
  }

  /** In a sorted prefix, being above x is upward closed. */
  lemma Upward<T(!new)>(s: seq<T>, x: T, i: nat, j: nat, less: (T, T) -> bool)
    requires Order(less) && Sorted(s, less) && i <= j < |s|
    ensures less(x, s[i]) ==> less(x, s[j])
  {
  }

  const WORD: int := 0x1_0000_0000_0000_0000

  /** The unsigned word that stands for m. */
  function Word(m: int): (w: nat)
    ensures w < WORD
  {
    m % WORD
  }

  lemma WordValue(m: int)
    requires -WORD / 2 <= m < WORD / 2
    ensures Word(m) == if m < 0 then m + WORD else m
  {
    if m < 0 {
      assert m == -1 * WORD + (m + WORD);
    }
  }

  lemma WordAdd(m: int, k: nat)
    requires -WORD / 2 <= m < WORD / 2 && m + k < WORD / 2 && k < WORD / 2
    ensures Word(Word(m) + k) == Word(m + k)
  {
    WordValue(m);
    WordValue(m + k);
    if m < 0 {
      if m + k >= 0 {
        assert m + WORD + k == 1 * WORD + (m + k);
      }
    }
  }

  /** The upper end of a search: nothing there, or something above x. */
  predicate High<T>(s: seq<T>, x: T, i: int, less: (T, T) -> bool) {
    0 <= i <= |s| && (i < |s| ==> less(x, s[i]))
  }

  /** The lower end: below the start, or something not above x, or the very start. */
  predicate Low<T>(s: seq<T>, x: T, i: int, less: (T, T) -> bool) {
    i < |s| && (i > 0 ==> !less(x, s[i]))
  }

  lemma PlaceFound<T(!new)>(s: seq<T>, x: T, p: nat, less: (T, T) -> bool)
    requires Order(less) && Sorted(s, less) && p <= |s|
    requires p > 0 ==> !less(x, s[p - 1])
    requires p < |s| ==> less(x, s[p])
    ensures Place(s, x, p, less)
  {
    forall i | 0 <= i < p
      ensures !less(x, s[i])
    {
      Upward(s, x, i, p - 1, less);
    }
    forall i | p <= i < |s|
      ensures less(x, s[i])
    {
      Upward(s, x, p, i, less);
    }
  }

  /** Doubles the distance until something not above the element is found, or the start is passed. */
  method Gallop<T(!new)>(items: array<T>, a: nat, less: (T, T) -> bool) returns (probe: nat, ghost e: nat)
    requires 1 <= a < items.Length < 0x2000_0000_0000_0000 && less(items[a], items[a - 1])
    ensures probe == Pow2(e) && probe < 2 * a && Low(items[..a], items[a], a - probe, less)
  {
    probe, e := 1, 0;
    while probe < a && less(items[a], items[a - probe])
      invariant probe == Pow2(e) && 1 <= probe < 2 * a
      decreases 2 * a - probe
    {
      probe := probe * 2;
      e := e + 1;
    }
  }

  /** Narrows the gap between a lower and an upper end down to one, with min as the word for the lower end. */
  method Bisect<T(!new)>(items: array<T>, a: nat, probe0: nat, ghost e0: nat, less: (T, T) -> bool) returns (min: nat, ghost m: int)
    requires 1 <= a < items.Length < 0x2000_0000_0000_0000 && probe0 == Pow2(e0) < 2 * a && Low(items[..a], items[a], a - probe0, less)
    ensures min == Word(m) && -1 <= m < a && Low(items[..a], items[a], m, less) && High(items[..a], items[a], m + 1, less)
  {
    ghost var s, x := items[..a], items[a];
    m := a - probe0;
    min := Word(a - probe0);
    ghost var top: int, e: nat := a, if e0 > 0 then e0 - 1 else 0;
    var probe := probe0 / 2;
    while probe != 0
      invariant -2 * a < m < top <= a && min == Word(m)
      invariant probe == 0 || probe == Pow2(e)
      invariant top - m == if probe == 0 then 1 else 2 * probe
      invariant Low(s, x, m, less) && High(s, x, top, less)
      decreases probe
    {
      WordAdd(m, probe);
      WordValue(m + probe);
      var mid := Word(min + probe);
      if mid > a || !less(items[a], items[mid]) {
        min := mid;
        m := m + probe;
      } else {
        top := m + probe;
      }
      probe := probe / 2;
      e := if e > 0 then e - 1 else 0;
    }
  }

  /** The search for the place of items[a] among the a elements before it. */
  method FindPlace<T(!new)>(items: array<T>, a: nat, less: (T, T) -> bool) returns (newpos: nat)
    requires Order(less) && 1 <= a < items.Length < 0x2000_0000_0000_0000
    requires Sorted(items[..a], less) && less(items[a], items[a - 1])
    ensures Place(items[..a], items[a], newpos, less)
  {
    ghost var e, m;
    var probe;
    probe, e := Gallop(items, a, less);
    var min;
    min, m := Bisect(items, a, probe, e, less);
    WordValue(m);
    WordAdd(m, 1);
    WordValue(m + 1);
    if min > a || !less(items[a], items[min]) {
      min := Word(min + 1);
    }
    newpos := min;
    PlaceFound(items[..a], items[a], newpos, less);
  }

  /** One round of the outer loop. */
  method InsertNext<T(!new)>(items: array<T>, a: nat, less: (T, T) -> bool)
    requires Order(less) && 1 <= a < items.Length < 0x2000_0000_0000_0000 && Sorted(items[..a], less)
    modifies items
    ensures items[..a + 1] == Insert(old(items[..a]), old(items[a]), less) && items[a + 1..] == old(items[a + 1..])
  {
    ghost var s, x := items[..a], items[a];
    if !less(items[a], items[a - 1]) {
      PlaceFound(s, x, a, less);
      InsertAt(s, x, a, less);
      assert items[..a + 1] == s + [x];
      return;
    }
    var newpos := FindPlace(items, a, less);
    InsertAt(s, x, newpos, less);
    hide Insert, Sorted, Place;
    assert s[newpos..] == items[newpos..a] && s[..newpos] == items[..newpos];
    MoveTo(items, a, newpos);
  }

  lemma ArrangedNext<T>(s: seq<T>, a: nat, less: (T, T) -> bool)
    requires a < |s|
    ensures Arranged(s[..a + 1], less) == Insert(Arranged(s[..a], less), s[a], less)
  {
    assert s[..a + 1][..a] == s[..a];
  }

  /** ssort */
  method SSort<T(!new)>(items: array<T>, less: (T, T) -> bool)
    requires Order(less) && items.Length < 0x2000_0000_0000_0000
    modifies items
    ensures items[..] == Arranged(old(items[..]), less)
  {
    hide Insert, Sorted, Order, Arranged;
    ghost var was := items[..];
    if items.Length > 0 {
      ArrangedOne(was[..1], less);
    } else {
      ArrangedNone(was, less);
    }
    var a := 1;
    while a < items.Length
      invariant 1 <= a && (a <= items.Length || items.Length == 0)
      invariant items.Length > 0 ==> items[..a] == Arranged(was[..a], less) && items[a..] == was[a..]
      invariant items.Length == 0 ==> items[..] == was
    {
      ArrangedSorted(was[..a], less);
      ArrangedNext(was, a, less);
      assert items[a] == items[a..][0] == was[a];
      InsertNext(items, a, less);
      assert items[a + 1..] == was[a..][1..] == was[a + 1..];
      a := a + 1;
    }
    if items.Length > 0 {
      assert items[..] == items[..a] && was == was[..a];
    }
  }

  lemma ArrangedOne<T>(s: seq<T>, less: (T, T) -> bool)
    requires |s| == 1
    ensures Arranged(s, less) == s
  {
    assert s[..0] == [];
  }

  lemma ArrangedNone<T>(s: seq<T>, less: (T, T) -> bool)
    requires |s| == 0
    ensures Arranged(s, less) == s
  {
  }

  /** The memmove: items[a] to newpos, what was there one up. */
  method MoveTo<T(!new)>(items: array<T>, a: nat, newpos: nat)
    requires newpos <= a < items.Length
    modifies items
    ensures items[..a + 1] == old(items[..newpos] + [items[a]] + items[newpos..a]) && items[a + 1..] == old(items[a + 1..])
  {
    var tmp := items[a];
    ghost var s := items[..];
    forall i | newpos < i <= a {
      items[i] := items[i - 1];
    }
    items[newpos] := tmp;
    assert forall k :: a < k < items.Length ==> items[k] == s[k];
    assert items[a + 1..] == s[a + 1..];
  }
}
