/** unpack_huffman_dfl of arlib/deflate-decomp.cpp: from code lengths to the decoding table. */
module HuffTable {
  import opened Bits
  import opened Canonical
  import opened HuffTree
  import TableSize

  function CodesBelow(lens: lengths, n: nat): codemap
    requires n <= |lens|
  {
    map m: nat | m < n && lens[m] > 0 :: Codeword(lens, m)
  }

  function AllCodes(lens: lengths): codemap {
    CodesBelow(lens, |lens|)
  }

  lemma CodesOk(lens: lengths, n: nat)
    requires n <= |lens| <= 288 && Kraft(lens) <= FULL
    ensures PrefixFreeCodes(CodesBelow(lens, n))
  {
    forall i, j | i in CodesBelow(lens, n) && j in CodesBelow(lens, n) && i != j
      ensures !Prefix(CodesBelow(lens, n)[i], CodesBelow(lens, n)[j])
    {
      PrefixFree(lens, i, j);
    }
  }

  /** The tables the decompressor accepts: complete codes, or no symbol longer than one bit. */
  predicate Accepted(lens: lengths, bad: nat) {
    Kraft(lens) == FULL || (Kraft(lens) < FULL && bad != 19 && forall i :: 0 <= i < |lens| ==> lens[i] <= 1)
  }

  // ----- the number of layers -----

  ghost predicate Paths(layers: layermap) {
    && 0 in layers
    && (forall s :: s in layers && s != 0 ==> |layers[s]| == 9 || |layers[s]| == 12)
    && (forall s, t :: s in layers && t in layers && layers[s] == layers[t] ==> s == t)
  }

  lemma {:induction false} CountPaths(layers: layermap, keys: set<nat>, k: nat, lo: int, hi: int)
    requires Paths(layers) && keys <= layers.Keys && lo <= hi
    requires forall s :: s in keys ==> |layers[s]| == k && lo <= MsbValue(layers[s]) < hi
    ensures |keys| <= hi - lo
    decreases hi - lo
  {
    if keys != {} {
      if s :| s in keys && MsbValue(layers[s]) == hi - 1 {
        forall t | t in keys - {s}
          ensures MsbValue(layers[t]) < hi - 1
        {
          if MsbValue(layers[t]) == hi - 1 {
            MsbOfValue(layers[s]);
            MsbOfValue(layers[t]);
          }
        }
        CountPaths(layers, keys - {s}, k, lo, hi - 1);
      } else {
        var s :| s in keys;
        CountPaths(layers, keys, k, lo, hi - 1);
      }
    }
  }

  lemma StartBelow(lens: lengths, m: nat, k: nat, w: bits)
    requires m < |lens| && lens[m] >= k > 0 && Kraft(lens) == FULL
    requires |w| == 16 && w[..lens[m]] == Codeword(lens, m)
    ensures Start(lens, k) <= MsbValue(w)
  {
    hide Start, Pow2, MsbValue, Left, Codeword;
    PrefixInterval(lens, m, w);
    Interval(lens, m);
    StartMono(lens, k, lens[m]);
  }

  lemma MsbUpper(w: bits, q: bits)
    requires |q| <= |w| == 16 && w[..|q|] == q
    ensures MsbValue(w) < (MsbValue(q) + 1) * Pow2(16 - |q|)
  {
    hide *;
    MsbPrefix(w, |q|);
  }

  /** A path that is a proper prefix of a codeword lies in the part of the code space left over by the
      shorter codes. */
  lemma PathRange(lens: lengths, m: nat, q: bits)
    requires m < |lens| && lens[m] > |q| > 0 && Prefix(q, Codeword(lens, m)) && Kraft(lens) == FULL
    ensures Start(lens, |q| + 1) < (MsbValue(q) + 1) * Pow2(16 - |q|)
    ensures MsbValue(q) < Pow2(|q|)
  {
    var w := Codeword(lens, m) + Zeros(16 - lens[m]);
    hide *;
    assert w[..|q|] == q && w[..lens[m]] == Codeword(lens, m);
    StartBelow(lens, m, |q| + 1, w);
    MsbUpper(w, q);
    MsbOfValue(q);
  }

  lemma LayerRange(lens: lengths, layers: layermap, s: nat)
    requires Kraft(lens) == FULL && Paths(layers) && Needed(layers, AllCodes(lens)) && s in layers && s != 0
    ensures |layers[s]| == 9 ==> 512 - TableSize.Inner9(lens) <= MsbValue(layers[s]) < 512
    ensures |layers[s]| == 12 ==> 4096 - TableSize.Inner12(lens) <= MsbValue(layers[s]) < 4096
  {
    var m :| m in AllCodes(lens) && |layers[s]| < |AllCodes(lens)[m]| && Prefix(layers[s], AllCodes(lens)[m]);
    assert m < |lens| && AllCodes(lens)[m] == Codeword(lens, m) && |AllCodes(lens)[m]| == lens[m];
    var q := layers[s];
    assert |q| == 9 || |q| == 12;
    hide *;
    PathDepth(lens, m, q);
  }

  lemma PathDepth(lens: lengths, m: nat, q: bits)
    requires m < |lens| && lens[m] > |q| && (|q| == 9 || |q| == 12) && Prefix(q, Codeword(lens, m)) && Kraft(lens) == FULL
    ensures |q| == 9 ==> 512 - TableSize.Inner9(lens) <= MsbValue(q) < 512
    ensures |q| == 12 ==> 4096 - TableSize.Inner12(lens) <= MsbValue(q) < 4096
  {
    hide *;
    PathRange(lens, m, q);
    TableSize.NodeUnits(lens);
    Powers();
    if |q| == 9 {
      Cancel(512 - TableSize.Inner9(lens), MsbValue(q), Pow2(7), 128, Start(lens, 10));
    } else {
      Cancel(4096 - TableSize.Inner12(lens), MsbValue(q), Pow2(4), 16, Start(lens, 13));
    }
  }

  lemma Cancel(x: int, v: int, p: int, k: int, total: int)
    requires total == k * x && total < (v + 1) * p && p == k >= 1
    ensures x <= v
  {
    if v + 1 <= x {
      MulLe(v + 1, x, k);
    }
  }

  lemma LayerCount(lens: lengths, layers: layermap)
    requires Kraft(lens) == FULL && Paths(layers) && Needed(layers, AllCodes(lens))
    ensures |layers| <= 1 + TableSize.Inner9(lens) + TableSize.Inner12(lens)
  {
    var a, b := TableSize.Inner9(lens), TableSize.Inner12(lens);
    var p, q10, q11, q12, r := TableSize.Shares(lens);
    var nine := set s | s in layers && s != 0 && |layers[s]| == 9;
    var twelve := set s | s in layers && s != 0 && |layers[s]| == 12;
    forall s | s in layers && s != 0
      ensures |layers[s]| == 9 ==> 512 - a <= MsbValue(layers[s]) < 512
      ensures |layers[s]| == 12 ==> 4096 - b <= MsbValue(layers[s]) < 4096
    {
      LayerRange(lens, layers, s);
    }
    hide Needed, MsbValue, TableSize.Inner9, TableSize.Inner12;
    CountPaths(layers, nine, 9, 512 - a, 512);
    CountPaths(layers, twelve, 12, 4096 - b, 4096);
    assert layers.Keys == {0} + nine + twelve;
  }

  // ----- construction -----

  /** What holds of the table between two symbols: the tree of the codes so far, in blocks of eight. */
  ghost predicate Built(tbl: seq<nat>, layers: layermap, codes: codemap, used: nat) {
    && Tree(tbl, layers, codes, used, EMPTY)
    && used == 512 + 8 * (|layers| - 1)
  }

  /** The codes being inserted are those of lens, and the table has room for all of them. */
  ghost predicate Fits(codes: codemap, lens: lengths, size: nat) {
    && (forall m :: m in codes ==> m in AllCodes(lens) && AllCodes(lens)[m] == codes[m])
    && ((exists m :: m in codes && |codes[m]| > 9) ==> Kraft(lens) == FULL && TableSize.Slots(lens) <= size <= 2048)
  }

  /** There is always room for the layer of a path that is on the way to a code. */
  lemma RoomNeeded(layers: layermap, codes: codemap, lens: lengths, size: nat, c: bits, n: nat, q: bits, used: nat, s: nat)
    requires Fits(codes[n := c], lens, size) && n !in codes && |q| < |c| && Prefix(q, c) && NeededSoFar(layers, codes, c, |q|)
    requires s in layers[used := q] && s != 0
    ensures var layers' := layers[used := q];
      exists m :: m in AllCodes(lens) && |layers'[s]| < |AllCodes(lens)[m]| && Prefix(layers'[s], AllCodes(lens)[m])
  {
    var codes', layers' := codes[n := c], layers[used := q];
    assert codes'[n] == c;
    hide Prefix;
    if s != used {
      if m :| m in codes && |layers[s]| < |codes[m]| && Prefix(layers[s], codes[m]) {
        assert codes'[m] == codes[m] == AllCodes(lens)[m];
      } else {
        assert AllCodes(lens)[n] == c;
      }
    } else {
      assert AllCodes(lens)[n] == c;
    }
  }

  lemma RoomComplete(codes: codemap, lens: lengths, size: nat, c: bits, n: nat)
    requires Fits(codes[n := c], lens, size) && n !in codes && |c| > 9
    ensures Kraft(lens) == FULL && TableSize.Slots(lens) <= size <= 2048
  {
    hide AllCodes;
    assert codes[n := c][n] == c;
  }

  lemma RoomPaths(layers: layermap, used: nat, q: bits)
    requires Layout(layers, used) && (|q| == 9 || |q| == 12) && forall s :: s in layers ==> layers[s] != q
    ensures Paths(layers[used := q]) && |layers[used := q]| == |layers| + 1
  {
    assert layers[used := q].Keys == layers.Keys + {used};
  }

  lemma RoomForAll(layers: layermap, codes: codemap, lens: lengths, size: nat, used: nat, c: bits, n: nat, q: bits)
    requires Fits(codes[n := c], lens, size) && n !in codes
    requires |q| < |c| && Prefix(q, c) && NeededSoFar(layers, codes, c, |q|)
    ensures Needed(layers[used := q], AllCodes(lens))
  {
    hide Prefix, Fits, NeededSoFar, AllCodes;
    var layers' := layers[used := q];
    forall s | s in layers' && s != 0
      ensures exists m :: m in AllCodes(lens) && |layers'[s]| < |AllCodes(lens)[m]| && Prefix(layers'[s], AllCodes(lens)[m])
    {
      RoomNeeded(layers, codes, lens, size, c, n, q, used, s);
    }
  }

  lemma Room(layers: layermap, codes: codemap, lens: lengths, size: nat, used: nat, c: bits, n: nat, q: bits)
    requires Fits(codes[n := c], lens, size) && n !in codes
    requires Layout(layers, used) && used == 512 + 8 * (|layers| - 1)
    requires |q| == 9 || |q| == 12
    requires |q| < |c| && Prefix(q, c) && NeededSoFar(layers, codes, c, |q|)
    requires forall s :: s in layers ==> layers[s] != q
    ensures used + 8 <= size <= 2048
    ensures |layers[used := q]| == |layers| + 1
  {
    hide Prefix, Fits, NeededSoFar, AllCodes, Needed, Paths, Layout;
    RoomComplete(codes, lens, size, c, n);
    RoomPaths(layers, used, q);
    RoomForAll(layers, codes, lens, size, used, c, n, q);
    LayerCount(lens, layers[used := q]);
  }

  /** Turns the hole at slot i of layer s into a link to a fresh layer. */
  method NewLayer(out: array<nat>, tree: nat, index: nat, taken: nat, ghost s: nat, ghost i: nat, ghost layers: layermap, ghost codes: codemap)
    requires Tree(out[..], layers, codes, tree, EMPTY)
    requires s in layers && i < Size(layers[s]) && At(out[..], s, i) == EMPTY && index == s + i
    requires var q := SlotPath(layers[s], i); taken == |q| <= 12 && (forall t :: t in layers ==> layers[t] != q)
    requires tree + 8 <= out.Length && tree < 2048
    modifies out
    ensures Tree(out[..], layers[tree := SlotPath(layers[s], i)], codes, tree + 8, EMPTY)
    ensures forall k :: 0 <= k < tree && k != s + i ==> out[k] == old(out[k])
    ensures out[s + i] == Link(taken, tree)
  {
    ghost var before := out[..];
    out[index] := Link(taken, tree);
    forall k | tree <= k < tree + 8 {
      out[k] := EMPTY;
    }
    GrowLayer(before, out[..], layers, codes, tree, s, i);
  }

  lemma StepVisited(tbl: seq<nat>, tbl': seq<nat>, layers: layermap, layers': layermap, used: nat, used': nat, s: nat, w: bits)
    requires Layout(layers, used) && used <= |tbl| == |tbl'| && Layout(layers', used') && used <= used' <= |tbl'| && |w| == 16
    requires s in layers && Prefix(layers[s], w) && |layers[s]| <= 9
    requires Visited(tbl, layers, used, w, |layers[s]|)
    requires SlotOf(layers[s], w) < Size(layers[s]) && At(tbl', s, SlotOf(layers[s], w)) != EMPTY
    requires forall k :: 0 <= k < used && k != s + SlotOf(layers[s], w) ==> tbl'[k] == tbl[k]
    requires forall t :: t in layers' ==> (t in layers && layers'[t] == layers[t]) || |layers'[t]| == |layers[s]| + Width(layers[s])
    requires s in layers'
    ensures Visited(tbl', layers', used', w, |layers[s]| + Width(layers[s]))
  {
    forall t | t in layers' && |layers'[t]| < |layers[s]| + Width(layers[s]) && Prefix(layers'[t], w)
      ensures SlotOf(layers'[t], w) < Size(layers'[t]) && At(tbl', t, SlotOf(layers'[t], w)) != EMPTY
    {
      SlotPathOf(layers'[t], w);
      if t != s {
        assert Prefix(layers[t], w) && |layers[t]| <= |layers[s]|;
        assert |layers[t]| < |layers[s]| by {
          if |layers[t]| == |layers[s]| {
            SamePath(layers, used, s, t, w);
          }
        }
        var j := SlotOf(layers[t], w);
        assert At(tbl, t, j) != EMPTY;
        assert t + j != s + SlotOf(layers[s], w) by {
          Apart(layers, used, s, SlotOf(layers[s], w), t, j);
        }
      }
    }
  }

  lemma SamePath(layers: layermap, used: nat, s: nat, t: nat, w: bits)
    requires Layout(layers, used) && s in layers && t in layers
    requires Prefix(layers[s], w) && Prefix(layers[t], w) && |layers[s]| == |layers[t]|
    ensures s == t
  {
  }

  lemma Apart(layers: layermap, used: nat, s: nat, i: nat, t: nat, j: nat)
    requires Layout(layers, used) && s in layers && t in layers && s != t
    requires i < Size(layers[s]) && j < Size(layers[t])
    ensures s + i != t + j
  {
  }

  lemma StepFacts(tbl: seq<nat>, tree: nat, s: nat, taken: nat, w: bits, len: nat, n: nat,
                  layers: layermap, codes: codemap, lens: lengths)
    requires |w| == 16 && len <= 15 && n !in codes
    requires Built(tbl, layers, codes, tree)
    requires Fits(codes[n := w[..len]], lens, |tbl|) && PrefixFreeCodes(codes[n := w[..len]])
    requires s in layers && Prefix(layers[s], w) && taken == |layers[s]| + Width(layers[s]) < len
    requires NeededSoFar(layers, codes, w[..len], |layers[s]|)
    ensures SlotOf(layers[s], w) < Size(layers[s]) && SlotPath(layers[s], SlotOf(layers[s], w)) == w[..taken]
    ensures NeededSoFar(layers, codes, w[..len], taken)
    ensures var e := At(tbl, s, SlotOf(layers[s], w));
      if e == EMPTY then
        && (forall t :: t in layers ==> layers[t] != w[..taken])
        && tree + 8 <= |tbl| <= 2048 && |layers[tree := w[..taken]]| == |layers| + 1
        && NeededSoFar(layers[tree := w[..taken]], codes, w[..len], taken)
      else
        Target(e) in layers && layers[Target(e)] == w[..taken]
  {
    var p, i, c, q := layers[s], SlotOf(layers[s], w), w[..len], w[..taken];
    SlotPathOf(p, w);
    assert q == c[..taken];
    NotPrefixes(codes, n, c);
    OnTheWay(tbl, layers, codes, tree, s, w, len);
    if At(tbl, s, i) == EMPTY {
      FreshPath(tbl, layers, codes, tree, s, i, c);
      Room(layers, codes, lens, |tbl|, tree, c, n, q);
    }
  }

  lemma NotPrefixes(codes: codemap, n: nat, c: bits)
    requires n !in codes && PrefixFreeCodes(codes[n := c])
    ensures forall m :: m in codes ==> !Prefix(codes[m], c)
  {
    var codes' := codes[n := c];
    forall m | m in codes
      ensures !Prefix(codes[m], c)
    {
      assert codes'[m] == codes[m] && codes'[n] == c;
    }
  }

  /** A link to a new layer, on the way to w. */
  method OpenLayer(out: array<nat>, tree: nat, s: nat, index: nat, taken: nat, ghost w: bits, ghost layers: layermap, ghost codes: codemap)
    requires |w| == 16 && Built(out[..], layers, codes, tree)
    requires s in layers && Prefix(layers[s], w) && |layers[s]| <= 9 && taken == |layers[s]| + Width(layers[s]) <= 12
    requires SlotOf(layers[s], w) < Size(layers[s]) && SlotPath(layers[s], SlotOf(layers[s], w)) == w[..taken]
    requires index == s + SlotOf(layers[s], w) && At(out[..], s, SlotOf(layers[s], w)) == EMPTY
    requires tree + 8 <= out.Length <= 2048 && (forall t :: t in layers ==> layers[t] != w[..taken])
    requires |layers[tree := w[..taken]]| == |layers| + 1 && Visited(out[..], layers, tree, w, |layers[s]|)
    modifies out
    ensures Built(out[..], layers[tree := w[..taken]], codes, tree + 8) && Visited(out[..], layers[tree := w[..taken]], tree + 8, w, taken)
  {
    hide SlotOk, Slots, Prefix, SlotPath, Visited, IsLink, Link;
    ghost var before := out[..];
    NewLayer(out, tree, index, taken, s, SlotOf(layers[s], w), layers, codes);
    LinkFields(taken, tree);
    StepVisited(before, out[..], layers, layers[tree := w[..taken]], tree, tree + 8, s, w);
  }

  /** One step down the tree towards w, creating the next layer if needed. */
  method Descend(out: array<nat>, tree: nat, s: nat, index: nat, taken: nat, ghost w: bits, ghost len: nat, ghost n: nat,
                 ghost layers: layermap, ghost codes: codemap, ghost lens: lengths)
    returns (s': nat, tree': nat, ghost layers': layermap)
    requires |w| == 16 && len <= 15 && n !in codes
    requires Built(out[..], layers, codes, tree)
    requires Fits(codes[n := w[..len]], lens, out.Length) && PrefixFreeCodes(codes[n := w[..len]])
    requires s in layers && Prefix(layers[s], w) && taken == |layers[s]| + Width(layers[s]) < len
    requires index == s + SlotOf(layers[s], w)
    requires NeededSoFar(layers, codes, w[..len], |layers[s]|) && Visited(out[..], layers, tree, w, |layers[s]|)
    modifies out
    ensures Built(out[..], layers', codes, tree')
    ensures s' in layers' && layers'[s'] == w[..taken]
    ensures NeededSoFar(layers', codes, w[..len], taken) && Visited(out[..], layers', tree', w, taken)
  {
    hide SlotOk, Slots, Fits, Prefix, NeededSoFar, PrefixFreeCodes, SlotPath, Visited, IsLink, Link;
    ghost var before := out[..];
    StepFacts(out[..], tree, s, taken, w, len, n, layers, codes, lens);
    if out[index] == EMPTY {
      OpenLayer(out, tree, s, index, taken, w, layers, codes);
      s', tree', layers' := tree, tree + 8, layers[tree := w[..taken]];
    } else {
      s', tree', layers' := Target(out[index]), tree, layers;
      StepVisited(before, out[..], layers, layers', tree, tree, s, w);
    }
  }

  /** The slots of the last layer that a code covers are low, low + 2^nb, low + 2 * 2^nb, ... */
  lemma CloneSlot(p: bits, c: bits, k: nat)
    requires |p| < |c| <= |p| + Width(p) && Prefix(p, c) && k < Pow2(|p| + Width(p) - |c|)
    ensures Clone(NatOf(c[|p|..]), |c| - |p|, k) < Size(p)
    ensures Prefix(c, SlotPath(p, Clone(NatOf(c[|p|..]), |c| - |p|, k)))
  {
    hide Pow2, NatOf, BitsOf, Size;
    var free := |p| + Width(p) - |c|;
    var x := c[|p|..] + BitsOf(k, free);
    NatOfConcat(c[|p|..], BitsOf(k, free));
    NatOfBitsOf(k, free);
    SmallMod(k, Pow2(free));
    NatOfBound(x);
    BitsOfNatOf(x);
    SizeWidth(p);
    assert p + x == c + BitsOf(k, free);
  }

  lemma CloneOf(p: bits, c: bits, i: nat) returns (k: nat)
    requires |p| < |c| <= |p| + Width(p) && Prefix(p, c) && i < Size(p) && Prefix(c, SlotPath(p, i))
    ensures k < Pow2(|p| + Width(p) - |c|) && i == Clone(NatOf(c[|p|..]), |c| - |p|, k)
  {
    hide Pow2, NatOf, BitsOf, Size;
    var x, nb := BitsOf(i, Width(p)), |c| - |p|;
    NatOfBitsOf(i, Width(p));
    SizeWidth(p);
    SmallMod(i, Size(p));
    k := NatOf(x[nb..]);
    NatOfBound(x[nb..]);
    NatOfConcat(x[..nb], x[nb..]);
    assert x == x[..nb] + x[nb..];
    assert c[|p|..] == x[..nb] by {
      assert c == (p + x)[..|c|];
    }
  }

  lemma OneCloned(before: seq<nat>, after: seq<nat>, s: nat, i: nat, leaf: nat, done: set<nat>)
    requires |before| == |after| && s + i < |after|
    requires forall k: nat :: k < |after| ==> after[k] == if k >= s && k - s in done then leaf else before[k]
    ensures At(after, s, i) == if i in done then leaf else At(before, s, i)
  {
    assert after[s + i] == if i in done then leaf else before[s + i];
  }

  /** After the loop: exactly the slots that the code covers are written. */
  lemma AllCloned(before: seq<nat>, after: seq<nat>, s: nat, p: bits, c: bits, low: nat, nBits: nat, clones: nat, leaf: nat, done: set<nat>)
    requires |before| == |after| && s + Size(p) <= |after|
    requires |p| < |c| <= |p| + Width(p) && Prefix(p, c) && clones >= Pow2(|p| + Width(p) - |c|)
    requires low == NatOf(c[|p|..]) && nBits == |c| - |p|
    requires forall i :: i in done ==> i < Size(p) && Prefix(c, SlotPath(p, i))
    requires forall k :: 0 <= k < clones ==> Clone(low, nBits, k) in done
    requires forall i: nat :: i < |after| ==> after[i] == if i >= s && i - s in done then leaf else before[i]
    ensures forall i :: 0 <= i < Size(p) ==> At(after, s, i) == if Prefix(c, SlotPath(p, i)) then leaf else At(before, s, i)
    ensures forall k :: 0 <= k < |after| && !(s <= k < s + Size(p)) ==> after[k] == before[k]
  {
    hide *;
    forall i | 0 <= i < Size(p)
      ensures At(after, s, i) == if Prefix(c, SlotPath(p, i)) then leaf else At(before, s, i)
    {
      if Prefix(c, SlotPath(p, i)) {
        var k := CloneOf(p, c, i);
        assert Clone(low, nBits, k) in done;
      }
      OneCloned(before, after, s, i, leaf, done);
    }
    forall k | 0 <= k < |after| && !(s <= k < s + Size(p))
      ensures after[k] == before[k]
    {
      assert k >= s ==> k - s !in done;
    }
  }

  /** The clone loop: writes one leaf to every slot of a layer that the code covers, all of them being empty. */
  method WriteClones(out: array<nat>, s: nat, low: nat, nBits: nat, free: nat, leaf: nat, ghost p: bits, ghost c: bits)
    requires s + Size(p) <= out.Length && |p| < |c| <= |p| + Width(p) && Prefix(p, c)
    requires low == NatOf(c[|p|..]) && nBits == |c| - |p| && free == |p| + Width(p) - |c|
    requires forall i :: 0 <= i < Size(p) && Prefix(c, SlotPath(p, i)) ==> out[s + i] == EMPTY
    modifies out
    ensures forall i :: 0 <= i < Size(p) ==> At(out[..], s, i) == if Prefix(c, SlotPath(p, i)) then leaf else At(old(out[..]), s, i)
    ensures forall k :: 0 <= k < out.Length && !(s <= k < s + Size(p)) ==> out[..][k] == old(out[..])[k]
  {
    hide *;
    ghost var before := out[..];
    ghost var done: set<nat> := {};
    var clones := 0;
    while clones < Pow2(free)
      invariant clones <= Pow2(free)
      invariant forall i :: i in done ==> i < Size(p) && Prefix(c, SlotPath(p, i))
      invariant forall i :: i in done ==> exists k :: 0 <= k < clones && i == Clone(low, nBits, k)
      invariant forall k :: 0 <= k < clones ==> Clone(low, nBits, k) in done
      invariant forall i: nat :: i < out.Length ==> out[i] == if i >= s && i - s in done then leaf else before[i]
    {
      ghost var i := Clone(low, nBits, clones);
      CloneSlot(p, c, clones);
      assert i !in done by {
        forall k | 0 <= k < clones
          ensures i != Clone(low, nBits, k)
        {
          CloneInjective(low, nBits, k, clones);
        }
      }
      assert out[s + Clone(low, nBits, clones)] == EMPTY;
      out[s + Clone(low, nBits, clones)] := leaf;
      done := done + {i};
      clones := clones + 1;
    }
    AllCloned(before, out[..], s, p, c, low, nBits, clones, leaf, done);
  }

  /** Enters a code of length len into layer s. */
  method FillLeaf(out: array<nat>, s: nat, low: nat, nBits: nat, free: nat, len: nat, n: nat, ghost w: bits,
                  ghost layers: layermap, ghost codes: codemap, ghost tree: nat)
    requires Tree(out[..], layers, codes, tree, EMPTY) && |w| == 16 && len <= 15
    requires n !in codes && PrefixFreeCodes(codes[n := w[..len]]) && Needed(layers, codes[n := w[..len]])
    requires s in layers && Prefix(layers[s], w) && |layers[s]| < len <= |layers[s]| + Width(layers[s])
    requires Visited(out[..], layers, tree, w, |layers[s]|)
    requires nBits == len - |layers[s]| && free == Width(layers[s]) - nBits && low == NatOf(w[|layers[s]|..len])
    modifies out
    ensures Tree(out[..], layers, codes[n := w[..len]], tree, EMPTY)
  {
    LayerInside(out[..], layers, codes, tree, s);
    CodeSuffix(layers[s], w, len);
    hide *;
    ghost var p, c := layers[s], w[..len];
    ghost var before := out[..];
    forall i | 0 <= i < Size(p) && Prefix(c, SlotPath(p, i))
      ensures out[s + i] == EMPTY
    {
      LeafSlotsFree(before, layers, codes, tree, s, i, n, c);
      AtIs(before, s, i);
    }
    WriteClones(out, s, low, nBits, free, Leaf(len, n), p, c);
    AddCode(before, out[..], layers, codes, tree, s, n, c, w);
  }

  lemma AtIs(tbl: seq<nat>, s: nat, i: nat)
    requires s + i < |tbl|
    ensures At(tbl, s, i) == tbl[s + i]
  {
  }

  lemma LayerInside(tbl: seq<nat>, layers: layermap, codes: codemap, used: nat, s: nat)
    requires Tree(tbl, layers, codes, used, EMPTY) && s in layers
    ensures s + Size(layers[s]) <= used <= |tbl|
  {
  }

  /** (clones << n_bits) | (bits & mask) */
  function Clone(low: nat, nBits: nat, k: nat): nat {
    low + Pow2(nBits) * k
  }

  lemma CloneInjective(low: nat, nBits: nat, k: nat, m: nat)
    requires k < m
    ensures Clone(low, nBits, k) < Clone(low, nBits, m)
  {
    MulLe(k + 1, m, Pow2(nBits));
    MulAdd(k, 1, Pow2(nBits));
  }

  lemma CodeSuffix(p: bits, w: bits, len: nat)
    requires Prefix(p, w) && |p| < len <= |w|
    ensures Prefix(p, w[..len]) && w[..len][|p|..] == w[|p|..len] && Prefix(w[..len], w)
  {
  }

  lemma ShiftOut(b: bits, w: bits, used: nat, k: nat)
    requires |b| == |w| == 16 && used + k <= 16 && b[..16 - used] == w[used..]
    ensures b[..k] == w[used..used + k]
    ensures (b[k..] + Zeros(k))[..16 - (used + k)] == w[used + k..]
  {
    assert forall i :: 0 <= i < 16 - used ==> b[i] == w[used + i] by {
      forall i | 0 <= i < 16 - used
        ensures b[i] == w[used + i]
      {
        assert b[..16 - used][i] == w[used..][i];
      }
    }
  }

  /** Adds one symbol. w is the bit-reversed code, of which the first len bits count. */
  method Insert(out: array<nat>, tree: nat, w: bits, len: nat, n: nat,
                ghost layers: layermap, ghost codes: codemap, ghost lens: lengths)
    returns (tree': nat, ghost layers': layermap)
    requires |w| == 16 && 1 <= len <= 15 && n !in codes
    requires PrefixFreeCodes(codes[n := w[..len]]) && Fits(codes[n := w[..len]], lens, out.Length)
    requires Built(out[..], layers, codes, tree) && Needed(layers, codes)
    modifies out
    ensures Built(out[..], layers', codes[n := w[..len]], tree') && Needed(layers', codes[n := w[..len]])
  {
    hide SlotOk, PrefixFreeCodes, Fits, SlotPath, Slots;
    layers', tree' := layers, tree;
    var layerStart, layerBits, bitsUsed, nBits, bits := 0, 9, 0, len, w;
    while nBits > layerBits
      invariant layerStart in layers' && bitsUsed == |layers'[layerStart]| && Prefix(layers'[layerStart], w)
      invariant layerBits == Width(layers'[layerStart]) && nBits == len - bitsUsed > 0
      invariant |bits| == 16 && bits[..16 - bitsUsed] == w[bitsUsed..]
      invariant Built(out[..], layers', codes, tree')
      invariant NeededSoFar(layers', codes, w[..len], bitsUsed) && Visited(out[..], layers', tree', w, bitsUsed)
      decreases nBits
    {
      var index := layerStart + NatOf(bits[..layerBits]);
      ShiftOut(bits, w, bitsUsed, layerBits);
      bits := bits[layerBits..] + Zeros(layerBits);
      nBits := nBits - layerBits;
      bitsUsed := bitsUsed + layerBits;
      layerStart, tree', layers' := Descend(out, tree', layerStart, index, bitsUsed, w, len, n, layers', codes, lens);
      layerBits := 3;
    }
    ShiftOut(bits, w, bitsUsed, nBits);
    NeededAfter(layers', codes, n, w[..len], bitsUsed);
    FillLeaf(out, layerStart, NatOf(bits[..nBits]), nBits, layerBits - nBits, len, n, w, layers', codes, tree');
  }

  // ----- the whole function -----

  /** The n_len loop. */
  method CountLengths(lens: lengths) returns (nLen: seq<nat>)
    ensures |nLen| == 16 && forall l :: 0 <= l < 16 ==> nLen[l] == Count(lens, l)
  {
    nLen := seq(16, i => 0);
    var n := 0;
    while n < |lens|
      invariant n <= |lens| && |nLen| == 16
      invariant forall l :: 0 <= l < 16 ==> nLen[l] == Count(lens[..n], l)
    {
      nLen := nLen[lens[n] := nLen[lens[n]] + 1];
      assert lens[..n + 1][..n] == lens[..n];
      n := n + 1;
    }
    assert lens[..n] == lens;
  }

  lemma StartsUpTo(lens: lengths, n: nat, a: seq<nat>)
    requires 1 <= n < 16 == |a| && forall l :: 1 <= l < n ==> a[l] == Start(lens, l) % FULL
    ensures forall l :: 1 <= l < n + 1 ==> a[n := Start(lens, n) % FULL][l] == Start(lens, l) % FULL
  {
    hide Start, Count, Pow2;
  }

  /** The bits_start loop. */
  method Starts(lens: lengths, nLen: seq<nat>) returns (usedBits: nat, bitsStart: seq<nat>)
    requires |nLen| == 16 && forall l :: 0 <= l < 16 ==> nLen[l] == Count(lens, l)
    ensures usedBits == Kraft(lens)
    ensures |bitsStart| == 16 && forall l :: 1 <= l < 16 ==> bitsStart[l] == Start(lens, l) % FULL
  {
    hide Start, Count, Pow2;
    usedBits, bitsStart := 0, seq(16, i => 0);
    var n := 1;
    StartOne(lens);
    while n < 16
      invariant 1 <= n <= 16 && |bitsStart| == 16 && usedBits == Start(lens, n)
      invariant forall l :: 1 <= l < n ==> bitsStart[l] == Start(lens, l) % FULL
    {
      StartsUpTo(lens, n, bitsStart);
      bitsStart := bitsStart[n := usedBits % FULL];
      StartStep(lens, n);
      usedBits := usedBits + Pow2(16 - n) * nLen[n];
      n := n + 1;
    }
  }

  /** The sum is that of the one-bit symbols alone exactly when there are no longer ones. */
  lemma OnlyShort(lens: lengths)
    ensures Kraft(lens) == Count(lens, 1) * 0x8000 <==> forall i :: 0 <= i < |lens| ==> lens[i] <= 1
  {
    hide Start, Count;
    StartOne(lens);
    StartStep(lens, 1);
    Powers();
    StartMono(lens, 2, 16);
    if i :| 0 <= i < |lens| && lens[i] > 1 {
      CountSplit(lens, i, lens[i]);
      StartStep(lens, lens[i]);
      MulLe(1, Count(lens, lens[i]), Pow2(16 - lens[i]));
      StartMono(lens, 2, lens[i]);
      StartMono(lens, lens[i] + 1, 16);
    } else {
      NoLong(lens, 16);
    }
  }

  lemma {:induction false} NoLong(lens: seq<nat>, l: nat)
    requires 2 <= l <= 16 && forall i :: 0 <= i < |lens| ==> lens[i] <= 1
    ensures Start(lens, l) == Start(lens, 2)
  {
    if l > 2 {
      NoLong(lens, l - 1);
      TableSize.NoneLonger(lens, l - 1);
    }
  }

  /** Overwriting the holes with the bad symbol, a leaf of no bits. */
  lemma Wipe(tbl: seq<nat>, tbl': seq<nat>, layers: layermap, codes: codemap, used: nat, bad: nat)
    requires Tree(tbl, layers, codes, used, EMPTY) && PrefixFreeCodes(codes) && bad < 512
    requires |tbl'| == |tbl| && forall k :: 0 <= k < used ==> tbl'[k] == if tbl[k] == EMPTY then bad else tbl[k]
    ensures Tree(tbl', layers, codes, used, bad)
  {
    forall s, i: nat | s in layers && i < Size(layers[s])
      ensures SlotOk(At(tbl', s, i), layers[s], i, layers, codes, bad)
    {
      var e := At(tbl, s, i);
      assert SlotOk(e, layers[s], i, layers, codes, EMPTY);
      if e != EMPTY && !IsLink(e) {
        LeafFields(|codes[LeafSymbol(e)]|, LeafSymbol(e));
      }
    }
  }

  /** A complete code fills every slot. */
  lemma NoHoles(tbl: seq<nat>, layers: layermap, lens: lengths, used: nat, s: nat, i: nat)
    requires Tree(tbl, layers, AllCodes(lens), used, EMPTY) && Kraft(lens) == FULL
    requires s in layers && i < Size(layers[s])
    ensures At(tbl, s, i) != EMPTY
  {
    var q := SlotPath(layers[s], i);
    var w := q + Zeros(16 - |q|);
    var n := Covered(lens, w);
    assert Prefix(q, w);
    TwoPrefixes(AllCodes(lens)[n], q, w);
    assert SlotOk(At(tbl, s, i), layers[s], i, layers, AllCodes(lens), EMPTY);
  }

  /** The bits_start entry of the symbol about to be placed holds its code. */
  lemma NextStart(lens: lengths, n: nat, start: nat)
    requires n < |lens| && lens[n] > 0 && Kraft(lens) <= FULL
    requires start == (Start(lens, lens[n]) + Count(lens[..n], lens[n]) * Pow2(16 - lens[n])) % FULL
    ensures start == Left(lens, n)
    ensures MsbOf(start, 16)[..lens[n]] == Codeword(lens, n)
  {
    hide Start, Count, Pow2, MsbOf;
    var l := lens[n];
    CodeBound(lens, n);
    PowPositive(16 - l);
    SmallMod(Left(lens, n), FULL);
    LeftCode(lens, n);
    MsbOfShift(Code(lens, n), l, 16 - l);
  }

  lemma PowPositive(k: nat)
    ensures Pow2(k) >= 1
  {
  }

  lemma {:induction false} MsbOfShift(x: nat, w: nat, k: nat)
    ensures MsbOf(x * Pow2(k), w + k)[..w] == MsbOf(x, w)
  {
    if k > 0 {
      Double(x, Pow2(k - 1));
      MsbOfShift(x, w, k - 1);
      assert x * Pow2(k) == 2 * (x * Pow2(k - 1));
    }
  }

  lemma BumpStart(a: nat, c: nat, p: nat)
    ensures ((a + c * p) % FULL + p) % FULL == (a + (c + 1) * p) % FULL
  {
    MulAdd(c, 1, p);
    ModAdd(a + c * p, p);
  }

  lemma ModAdd(x: nat, p: nat)
    ensures (x % FULL + p) % FULL == (x + p) % FULL
  {
  }

  /** The next code of each length, after the first n symbols. */
  ghost predicate NextStarts(lens: lengths, n: nat, b: seq<nat>)
    requires n <= |lens|
  {
    |b| == 16 && forall l :: 1 <= l < 16 ==> b[l] == (Start(lens, l) + Count(lens[..n], l) * Pow2(16 - l)) % FULL
  }

  lemma FirstStarts(lens: lengths, b: seq<nat>)
    requires |b| == 16 && forall l :: 1 <= l < 16 ==> b[l] == Start(lens, l) % FULL
    ensures NextStarts(lens, 0, b)
  {
    hide Start, Pow2;
    assert lens[..0] == [];
  }

  lemma BumpStarts(lens: lengths, n: nat, b: seq<nat>)
    requires n < |lens| && NextStarts(lens, n, b)
    ensures lens[n] == 0 ==> NextStarts(lens, n + 1, b)
    ensures lens[n] > 0 ==> NextStarts(lens, n + 1, b[lens[n] := (b[lens[n]] + Pow2(16 - lens[n])) % FULL])
  {
    hide Start, Count, Pow2;
    CountStep(lens, n);
    var l := lens[n];
    if l > 0 {
      BumpStart(Start(lens, l), Count(lens[..n], l), Pow2(16 - l));
    }
  }

  lemma NextWord(lens: lengths, n: nat, b: seq<nat>, bad: nat)
    requires n < |lens| && lens[n] > 0 && NextStarts(lens, n, b) && Accepted(lens, bad)
    ensures MsbOf(b[lens[n]], 16)[..lens[n]] == Codeword(lens, n)
  {
    hide Start, Count, Pow2, MsbOf, Codeword;
    KraftBound(lens, bad);
    NextStart(lens, n, b[lens[n]]);
  }

  lemma CodesStep(lens: lengths, n: nat)
    requires n < |lens|
    ensures CodesBelow(lens, n + 1) == if lens[n] > 0 then CodesBelow(lens, n)[n := Codeword(lens, n)] else CodesBelow(lens, n)
    ensures n !in CodesBelow(lens, n)
  {
  }

  lemma CodesFit(lens: lengths, n: nat, size: nat, bad: nat)
    requires n <= |lens| && Accepted(lens, bad) && (Kraft(lens) == FULL ==> TableSize.Slots(lens) <= size <= 2048)
    ensures Fits(CodesBelow(lens, n), lens, size)
  {
  }

  /** The checks on the sum of the code space. */
  method Classify(lens: lengths, bad: nat) returns (ok: bool, usedBits: nat, bitsStart: seq<nat>)
    ensures ok <==> Accepted(lens, bad)
    ensures usedBits == Kraft(lens)
    ensures |bitsStart| == 16 && forall l :: 1 <= l < 16 ==> bitsStart[l] == Start(lens, l) % FULL
  {
    var nLen := CountLengths(lens);
    usedBits, bitsStart := Starts(lens, nLen);
    OnlyShort(lens);
    hide Start, Count, Kraft;
    ok := true;
    if usedBits != FULL {
      if usedBits > FULL {
        ok := false;
      } else if usedBits != nLen[1] * 0x8000 {
        ok := false;
      } else if bad == 19 {
        ok := false;
      }
    }
  }

  method Clear(out: array<nat>) returns (ghost layers: layermap)
    requires 512 <= out.Length
    modifies out
    ensures Built(out[..], layers, map[], 512) && Needed(layers, map[])
  {
    var k := 0;
    while k < 512
      invariant k <= 512 && forall i :: 0 <= i < k ==> out[i] == EMPTY
    {
      out[k] := EMPTY;
      k := k + 1;
    }
    layers := map[0 := []];
    EmptyTree(out[..], layers);
  }

  /** The symbol loop. */
  method InsertAll(out: array<nat>, lens: lengths, bad: nat, starts: seq<nat>, ghost layers0: layermap)
    returns (outTree: nat, ghost layers: layermap)
    requires |lens| <= 288 && Accepted(lens, bad)
    requires Kraft(lens) == FULL ==> TableSize.Slots(lens) <= out.Length <= 2048
    requires |starts| == 16 && forall l :: 1 <= l < 16 ==> starts[l] == Start(lens, l) % FULL
    requires Built(out[..], layers0, map[], 512) && Needed(layers0, map[])
    modifies out
    ensures Built(out[..], layers, AllCodes(lens), outTree)
  {
    hide NextStarts, Start, Count, Kraft, Left, Code, Codeword, Built, Needed, Fits, PrefixFreeCodes, CodesBelow, Pow2, Accepted;
    NoCodes(lens);
    KraftBound(lens, bad);
    FirstStarts(lens, starts);
    outTree, layers := 512, layers0;
    var bitsStart: seq<nat> := starts;
    var n := 0;
    while n < |lens|
      invariant n <= |lens| && |bitsStart| == 16 && NextStarts(lens, n, bitsStart)
      invariant Built(out[..], layers, CodesBelow(lens, n), outTree) && Needed(layers, CodesBelow(lens, n))
    {
      var nBits := lens[n];
      CodesStep(lens, n);
      BumpStarts(lens, n, bitsStart);
      if nBits != 0 {
        var w := MsbOf(bitsStart[nBits], 16);
        NextWord(lens, n, bitsStart, bad);
        bitsStart := bitsStart[nBits := (bitsStart[nBits] + Pow2(16 - nBits)) % FULL];
        CodesOk(lens, n + 1);
        CodesFit(lens, n + 1, out.Length, bad);
        outTree, layers := Insert(out, outTree, w, nBits, n, layers, CodesBelow(lens, n), lens);
      }
      n := n + 1;
    }
  }

  lemma KraftBound(lens: lengths, bad: nat)
    requires Accepted(lens, bad)
    ensures Kraft(lens) <= FULL
  {
  }

  /** The final loop, for incomplete codes only. */
  method WipeHoles(out: array<nat>, outTree: nat, bad: nat, ghost layers: layermap, ghost codes: codemap)
    requires Tree(out[..], layers, codes, outTree, EMPTY) && PrefixFreeCodes(codes) && bad < 512
    modifies out
    ensures Tree(out[..], layers, codes, outTree, bad)
  {
    ghost var filled := out[..];
    TreeSize(out[..], layers, codes, outTree);
    hide Tree, PrefixFreeCodes;
    var i := 0;
    while i < outTree
      invariant i <= outTree
      invariant forall j :: 0 <= j < out.Length ==> out[j] == if j < i && filled[j] == EMPTY then bad else filled[j]
    {
      if out[i] == EMPTY {
        out[i] := bad;
      }
      i := i + 1;
    }
    Wipe(filled, out[..], layers, codes, outTree, bad);
  }

  /** The table is built exactly for the accepted code lengths; then it holds their canonical code, with
      the bad symbol in the slots that no codeword reaches. */
  method Unpack(out: array<nat>, lens: lengths, bad: nat) returns (ok: bool, ghost layers: layermap, ghost used: nat)
    requires |lens| <= 288 && bad < 512
    requires 512 <= out.Length <= 2048 && (Kraft(lens) == FULL ==> TableSize.Slots(lens) <= out.Length)
    modifies out
    ensures ok <==> Accepted(lens, bad)
    ensures ok ==> Tree(out[..], layers, AllCodes(lens), used, bad)
  {
    hide Start, Count, Kraft, Tree, Needed, PrefixFreeCodes, CodesBelow, Accepted;
    var usedBits, bitsStart;
    layers, used := map[], 0;
    ok, usedBits, bitsStart := Classify(lens, bad);
    if !ok {
      return;
    }
    KraftBound(lens, bad);
    layers := Clear(out);
    var outTree;
    outTree, layers := InsertAll(out, lens, bad, bitsStart, layers);
    used := outTree;
    CodesOk(lens, |lens|);
    if usedBits != FULL {
      WipeHoles(out, outTree, bad, layers, AllCodes(lens));
    } else {
      Complete(out[..], layers, lens, outTree, bad);
    }
  }

  lemma TreeSize(tbl: seq<nat>, layers: layermap, codes: codemap, used: nat)
    requires Tree(tbl, layers, codes, used, EMPTY)
    ensures used <= |tbl|
  {
  }

  lemma NoCodes(lens: lengths)
    ensures CodesBelow(lens, 0) == map[]
    ensures forall l :: Count(lens[..0], l) == 0
  {
  }

  lemma CountStep(lens: lengths, n: nat)
    requires n < |lens|
    ensures forall l :: Count(lens[..n + 1], l) == Count(lens[..n], l) + (if lens[n] == l then 1 else 0)
  {
    assert lens[..n + 1][..n] == lens[..n];
  }

  lemma EmptyTree(tbl: seq<nat>, layers: layermap)
    requires |tbl| >= 512 && (forall i :: 0 <= i < 512 ==> tbl[i] == EMPTY) && layers == map[0 := []]
    ensures Built(tbl, layers, map[], 512) && Needed(layers, map[])
  {
  }

  lemma Complete(tbl: seq<nat>, layers: layermap, lens: lengths, used: nat, bad: nat)
    requires Tree(tbl, layers, AllCodes(lens), used, EMPTY) && Kraft(lens) == FULL && |lens| <= 288 && bad < 512
    ensures Tree(tbl, layers, AllCodes(lens), used, bad)
  {
    CodesOk(lens, |lens|);
    forall s, i: nat | s in layers && i < Size(layers[s])
      ensures SlotOk(At(tbl, s, i), layers[s], i, layers, AllCodes(lens), bad)
    {
      var e := At(tbl, s, i);
      NoHoles(tbl, layers, lens, used, s, i);
      assert SlotOk(e, layers[s], i, layers, AllCodes(lens), EMPTY);
      if !IsLink(e) {
        LeafFields(|AllCodes(lens)[LeafSymbol(e)]|, LeafSymbol(e));
      }
    }
  }
}
