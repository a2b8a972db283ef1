/** The multi-level decoding table as a data structure: entries packed in 16 bits, one layer of 512 slots
    and further layers of eight, each layer reached by one path of code bits. */
module HuffTree {
  import opened Bits
  import opened Canonical

  /** An unused slot while a table is being built. */
  const EMPTY := 0xFFFF

  type layermap = map<nat, bits>
  type codemap = map<nat, bits>

  /** Length in bits 11..14, symbol in bits 0..8; the end-of-block symbol 256 is stored as 256 | 128. */
  function Leaf(len: nat, n: nat): nat {
    len * 2048 + (if n == 256 then 384 else n)
  }

  function LeafLength(e: nat): nat {
    e / 2048
  }

  function SymbolField(e: nat): nat {
    e % 512
  }

  function LeafSymbol(e: nat): nat {
    if SymbolField(e) == 384 then 256 else SymbolField(e)
  }

  /** Flag in bit 15, bits taken so far in bits 11..14, target in bits 0..10. */
  function Link(taken: nat, target: nat): nat {
    0x8000 + taken * 2048 + target
  }

  function Taken(e: nat): nat {
    e / 2048 % 16
  }

  function Target(e: nat): nat {
    e % 2048
  }

  predicate IsLink(e: nat) {
    e / 0x8000 % 2 == 1
  }

  lemma LeafFields(len: nat, n: nat)
    requires 1 <= len <= 15 && n <= 287
    ensures !IsLink(Leaf(len, n)) && LeafLength(Leaf(len, n)) == len && LeafSymbol(Leaf(len, n)) == n
    ensures 2048 <= Leaf(len, n) < 0x8000
  {
  }

  lemma LinkFields(taken: nat, target: nat)
    requires taken <= 12 && target < 2048
    ensures IsLink(Link(taken, target)) && Taken(Link(taken, target)) == taken && Target(Link(taken, target)) == target
    ensures 0x8000 <= Link(taken, target) < EMPTY
  {
  }

  /** Bits decided by a layer whose path is p. */
  function Width(p: bits): nat {
    if |p| == 0 then 9 else 3
  }

  function Size(p: bits): nat {
    if |p| == 0 then 512 else 8
  }

  lemma SizeWidth(p: bits)
    ensures Size(p) == Pow2(Width(p))
  {
    assert Pow2(3) == 8;
    assert Pow2(9) == 512;
  }

  /** The path of slot i of the layer with path p. */
  function SlotPath(p: bits, i: nat): (q: bits)
    ensures |q| == |p| + Width(p)
  {
    p + BitsOf(i, Width(p))
  }

  /** The slot on which a stream w that starts with p lands. */
  function SlotOf(p: bits, w: bits): nat
    requires |p| + Width(p) <= |w|
  {
    NatOf(w[|p|..|p| + Width(p)])
  }

  lemma SlotPathOf(p: bits, w: bits)
    requires Prefix(p, w) && |p| + Width(p) <= |w|
    ensures SlotOf(p, w) < Size(p)
    ensures SlotPath(p, SlotOf(p, w)) == w[..|p| + Width(p)]
  {
    var x := w[|p|..|p| + Width(p)];
    NatOfBound(x);
    BitsOfNatOf(x);
    SizeWidth(p);
    assert w[..|p| + Width(p)] == w[..|p|] + x;
  }

  lemma SlotOfPath(p: bits, i: nat)
    requires i < Size(p)
    ensures SlotOf(p, SlotPath(p, i)) == i
  {
    SizeWidth(p);
    NatOfBitsOf(i, Width(p));
    assert SlotPath(p, i)[|p|..|p| + Width(p)] == BitsOf(i, Width(p));
    SmallMod(i, Size(p));
  }

  lemma SlotOnWay(p: bits, i: nat, w: bits)
    requires i < Size(p) && Prefix(SlotPath(p, i), w)
    ensures SlotOf(p, w) == i
  {
    SlotOfPath(p, i);
    assert w[|p|..|p| + Width(p)] == SlotPath(p, i)[|p|..|p| + Width(p)];
  }

  lemma SmallMod(i: nat, m: nat)
    requires i < m
    ensures i % m == i
  {
  }

  ghost predicate Comparable(a: bits, b: bits) {
    Prefix(a, b) || Prefix(b, a)
  }

  /** Layer starts are 0 or blocks of eight above 512, and no two layers share a path. */
  ghost predicate Layout(layers: layermap, used: nat) {
    && 0 in layers && layers[0] == []
    && 512 <= used && used % 8 == 0
    && (forall s :: s in layers && s != 0 ==>
          512 <= s && s % 8 == 0 && s + 8 <= used && (|layers[s]| == 9 || |layers[s]| == 12))
    && (forall s, t :: s in layers && t in layers && layers[s] == layers[t] ==> s == t)
  }

  /** A slot is a hole that no code can reach, the leaf of the code that ends here, or a link to the
      layer with its path. */
  ghost predicate SlotOk(e: nat, p: bits, i: nat, layers: layermap, codes: codemap, hole: nat) {
    var q := SlotPath(p, i);
    if e == hole then
      forall m :: m in codes ==> !Comparable(codes[m], q)
    else if IsLink(e) then
      Target(e) in layers && layers[Target(e)] == q && e == Link(|q|, Target(e))
    else
      var m := LeafSymbol(e);
      m in codes && e == Leaf(|codes[m]|, m) && |p| < |codes[m]| && Prefix(codes[m], q)
  }

  function At(tbl: seq<nat>, s: nat, i: nat): nat
    requires s + i < |tbl|
  {
    tbl[s + i]
  }

  ghost predicate Slots(tbl: seq<nat>, layers: layermap, codes: codemap, hole: nat)
    requires forall s :: s in layers ==> s + Size(layers[s]) <= |tbl|
  {
    forall s, i: nat :: s in layers && i < Size(layers[s]) ==> SlotOk(At(tbl, s, i), layers[s], i, layers, codes, hole)
  }

  /** The first used slots of tbl hold the code tree of codes. */
  ghost predicate Tree(tbl: seq<nat>, layers: layermap, codes: codemap, used: nat, hole: nat) {
    && Layout(layers, used)
    && used <= |tbl|
    && Slots(tbl, layers, codes, hole)
  }

  /** Every layer but the first lies on the way to some code. */
  ghost predicate Needed(layers: layermap, codes: codemap) {
    forall s :: s in layers && s != 0 ==> exists m :: m in codes && |layers[s]| < |codes[m]| && Prefix(layers[s], codes[m])
  }

  ghost predicate PrefixFreeCodes(codes: codemap) {
    && (forall m :: m in codes ==> 1 <= |codes[m]| <= 15 && m <= 287)
    && (forall m, n :: m in codes && n in codes && m != n ==> !Prefix(codes[m], codes[n]))
  }

  /** Slots of different layers never overlap. */
  lemma NoOverlap(layers: layermap, used: nat, s: nat, i: nat, t: nat, j: nat)
    requires Layout(layers, used) && s in layers && t in layers
    requires i < Size(layers[s]) && j < Size(layers[t]) && s + i == t + j
    ensures s == t && i == j
  {
  }

  lemma ComparableBelow(a: bits, q: bits, r: bits)
    requires Prefix(q, r) && Comparable(a, r)
    ensures Comparable(a, q)
  {
    if Prefix(a, r) {
      if |a| <= |q| {
        assert a == r[..|a|] == q[..|a|];
      } else {
        assert a[..|q|] == r[..|q|] == q;
      }
    } else {
      assert q == r[..|q|] == a[..|r|][..|q|] == a[..|q|];
    }
  }

  /** Two prefixes of the same stream are comparable. */
  lemma TwoPrefixes(a: bits, b: bits, w: bits)
    requires Prefix(a, w) && Prefix(b, w)
    ensures Comparable(a, b)
  {
    if |a| <= |b| {
      assert a == w[..|a|] == b[..|a|];
    } else {
      assert b == w[..|b|] == a[..|b|];
    }
  }

  lemma PrefixTrans(a: bits, b: bits, c: bits)
    requires Prefix(a, b) && Prefix(b, c)
    ensures Prefix(a, c)
  {
    assert a == b[..|a|] == c[..|b|][..|a|] == c[..|a|];
  }

  // ----- growing the tree -----

  /** The tree after the hole at slot i of layer s became a link to a new layer at the end. */
  lemma GrowLayer(tbl: seq<nat>, tbl': seq<nat>, layers: layermap, codes: codemap, used: nat, s: nat, i: nat)
    requires Tree(tbl, layers, codes, used, EMPTY)
    requires s in layers && i < Size(layers[s]) && At(tbl, s, i) == EMPTY
    requires var q := SlotPath(layers[s], i); |q| <= 12 && (forall t :: t in layers ==> layers[t] != q)
    requires |tbl'| == |tbl| && used + 8 <= |tbl| && used < 2048
    requires forall k :: 0 <= k < used && k != s + i ==> tbl'[k] == tbl[k]
    requires tbl'[s + i] == Link(|SlotPath(layers[s], i)|, used)
    requires forall k :: used <= k < used + 8 ==> tbl'[k] == EMPTY
    ensures Tree(tbl', layers[used := SlotPath(layers[s], i)], codes, used + 8, EMPTY)
  {
    var q := SlotPath(layers[s], i);
    var layers' := layers[used := q];
    LinkFields(|q|, used);
    assert Layout(layers', used + 8);
    forall t, j: nat | t in layers' && j < Size(layers'[t])
      ensures SlotOk(At(tbl', t, j), layers'[t], j, layers', codes, EMPTY)
    {
      if t == used {
        var r := SlotPath(q, j);
        assert Prefix(q, r);
        assert SlotOk(At(tbl, s, i), layers[s], i, layers, codes, EMPTY);
        forall m | m in codes
          ensures !Comparable(codes[m], r)
        {
          if Comparable(codes[m], r) {
            ComparableBelow(codes[m], q, r);
          }
        }
      } else {
        assert SlotOk(At(tbl, t, j), layers[t], j, layers, codes, EMPTY);
        if t + j == s + i {
          NoOverlap(layers, used, s, i, t, j);
        }
      }
    }
  }

  /** On the way to w, every layer above depth d has a used slot. */
  ghost predicate Visited(tbl: seq<nat>, layers: layermap, used: nat, w: bits, d: nat)
    requires Layout(layers, used) && used <= |tbl| && |w| == 16
  {
    forall s :: s in layers && |layers[s]| < d && Prefix(layers[s], w) ==>
      SlotOf(layers[s], w) < Size(layers[s]) && At(tbl, s, SlotOf(layers[s], w)) != EMPTY
  }

  /** A used slot on the way to a new code is a link: a leaf would be a prefix of the new code. */
  lemma OnTheWay(tbl: seq<nat>, layers: layermap, codes: codemap, used: nat, s: nat, w: bits, len: nat)
    requires Tree(tbl, layers, codes, used, EMPTY) && |w| == 16 && len <= 15
    requires s in layers && Prefix(layers[s], w) && |layers[s]| + Width(layers[s]) < len
    requires forall m :: m in codes ==> !Prefix(codes[m], w[..len])
    ensures SlotOf(layers[s], w) < Size(layers[s])
    ensures var e := At(tbl, s, SlotOf(layers[s], w)); e != EMPTY ==>
      IsLink(e) && Target(e) in layers && layers[Target(e)] == w[..|layers[s]| + Width(layers[s])]
  {
    var p := layers[s];
    var i := SlotOf(p, w);
    SlotPathOf(p, w);
    var e, q := At(tbl, s, i), SlotPath(p, i);
    assert SlotOk(e, p, i, layers, codes, EMPTY);
    if e != EMPTY && !IsLink(e) {
      var m := LeafSymbol(e);
      assert Prefix(q, w[..len]) by {
        assert w[..len][..|q|] == w[..|q|];
      }
      PrefixTrans(codes[m], q, w[..len]);
    }
  }

  /** As Needed, except that layers down to depth d may lie on the way to the new code c only. */
  ghost predicate NeededSoFar(layers: layermap, codes: codemap, c: bits, d: nat) {
    forall s :: s in layers && s != 0 ==>
      || (exists m :: m in codes && |layers[s]| < |codes[m]| && Prefix(layers[s], codes[m]))
      || (|layers[s]| <= d && |layers[s]| < |c| && Prefix(layers[s], c))
  }

  lemma NeededAfter(layers: layermap, codes: codemap, n: nat, c: bits, d: nat)
    requires NeededSoFar(layers, codes, c, d) && n !in codes
    ensures Needed(layers, codes[n := c])
  {
    var codes' := codes[n := c];
    forall s | s in layers && s != 0
      ensures exists m :: m in codes' && |layers[s]| < |codes'[m]| && Prefix(layers[s], codes'[m])
    {
      if m :| m in codes && |layers[s]| < |codes[m]| && Prefix(layers[s], codes[m]) {
        assert codes'[m] == codes[m];
      } else {
        assert codes'[n] == c;
      }
    }
  }

  /** Where a hole becomes a link, no layer with that path exists yet. */
  lemma FreshPath(tbl: seq<nat>, layers: layermap, codes: codemap, used: nat, s: nat, i: nat, c: bits)
    requires Tree(tbl, layers, codes, used, EMPTY) && s in layers
    requires NeededSoFar(layers, codes, c, |layers[s]|)
    requires i < Size(layers[s]) && At(tbl, s, i) == EMPTY
    ensures forall t :: t in layers ==> layers[t] != SlotPath(layers[s], i)
  {
    var q := SlotPath(layers[s], i);
    assert SlotOk(At(tbl, s, i), layers[s], i, layers, codes, EMPTY);
    assert forall m :: m in codes ==> !Comparable(codes[m], q);
  }

  /** The slots of the last layer that a new code covers are all holes: no slot is written twice. */
  lemma LeafSlotsFree(tbl: seq<nat>, layers: layermap, codes: codemap, used: nat, s: nat, i: nat, n: nat, c: bits)
    requires Tree(tbl, layers, codes, used, EMPTY)
    requires n !in codes && PrefixFreeCodes(codes[n := c]) && Needed(layers, codes[n := c])
    requires s in layers && |layers[s]| < |c| && i < Size(layers[s]) && Prefix(c, SlotPath(layers[s], i))
    ensures At(tbl, s, i) == EMPTY
  {
    var q, e := SlotPath(layers[s], i), At(tbl, s, i);
    var codes' := codes[n := c];
    assert codes'[n] == c;
    assert SlotOk(e, layers[s], i, layers, codes, EMPTY);
    if e != EMPTY {
      if IsLink(e) {
        var t := Target(e);
        var m :| m in codes' && |layers[t]| < |codes'[m]| && Prefix(layers[t], codes'[m]);
        PrefixTrans(c, q, codes'[m]);
      } else {
        var m := LeafSymbol(e);
        assert codes'[m] == codes[m];
        TwoPrefixes(c, codes[m], q);
      }
    }
  }

  lemma NewHole(tbl: seq<nat>, layers: layermap, codes: codemap, used: nat, s: nat, n: nat, c: bits, w: bits, t: nat, j: nat)
    requires Tree(tbl, layers, codes, used, EMPTY) && |w| == 16
    requires n !in codes && PrefixFreeCodes(codes[n := c]) && Needed(layers, codes[n := c])
    requires s in layers && |layers[s]| < |c| <= |layers[s]| + Width(layers[s])
    requires Prefix(c, w) && Prefix(layers[s], c) && Visited(tbl, layers, used, w, |layers[s]|)
    requires t in layers && j < Size(layers[t]) && At(tbl, t, j) == EMPTY
    requires t == s ==> !Prefix(c, SlotPath(layers[s], j))
    ensures !Comparable(c, SlotPath(layers[t], j))
  {
    var p, p', q := layers[s], layers[t], SlotPath(layers[t], j);
    var codes' := codes[n := c];
    assert codes'[n] == c;
    assert Prefix(p', q);
    if Prefix(c, q) {
      TwoPrefixes(p', c, q);
      if |p'| >= |c| {
        var m :| m in codes' && |p'| < |codes'[m]| && Prefix(p', codes'[m]);
        PrefixTrans(c, p', codes'[m]);
      }
    } else if Prefix(q, c) {
      PrefixTrans(p', q, c);
      PrefixTrans(p', c, w);
      PrefixTrans(q, c, w);
      SlotOnWay(p', j, w);
    }
  }

  /** The tree after every slot that a new code covers got its leaf. */
  lemma AddCode(tbl: seq<nat>, tbl': seq<nat>, layers: layermap, codes: codemap, used: nat, s: nat, n: nat, c: bits, w: bits)
    requires Tree(tbl, layers, codes, used, EMPTY) && |w| == 16
    requires n !in codes && PrefixFreeCodes(codes[n := c]) && Needed(layers, codes[n := c])
    requires s in layers && |layers[s]| < |c| <= |layers[s]| + Width(layers[s])
    requires Prefix(c, w) && Prefix(layers[s], c) && Visited(tbl, layers, used, w, |layers[s]|)
    requires |tbl'| == |tbl|
    requires forall i :: 0 <= i < Size(layers[s]) ==>
      At(tbl', s, i) == if Prefix(c, SlotPath(layers[s], i)) then Leaf(|c|, n) else At(tbl, s, i)
    requires forall k :: 0 <= k < used && !(s <= k < s + Size(layers[s])) ==> tbl'[k] == tbl[k]
    ensures Tree(tbl', layers, codes[n := c], used, EMPTY)
  {
    var codes' := codes[n := c];
    assert codes'[n] == c;
    LeafFields(|c|, n);
    forall t, j: nat | t in layers && j < Size(layers[t])
      ensures SlotOk(At(tbl', t, j), layers[t], j, layers, codes', EMPTY)
    {
      var q, e := SlotPath(layers[t], j), At(tbl, t, j);
      assert SlotOk(e, layers[t], j, layers, codes, EMPTY);
      if t == s && Prefix(c, q) {
      } else {
        if t != s && s <= t + j < s + Size(layers[s]) {
          NoOverlap(layers, used, s, t + j - s, t, j);
        }
        assert At(tbl', t, j) == e;
        if e == EMPTY {
          NewHole(tbl, layers, codes, used, s, n, c, w, t, j);
        }
      }
    }
  }
}
