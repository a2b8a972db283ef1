/** The resumable decompressor of arlib/deflate.h and arlib/deflate-decomp.cpp (class inflator). */
module Inflator {
  import opened Wrappers
  import opened Bits
  import opened Canonical
  import opened HuffTree
  import HuffTable
  import FixedCodes
  import TableSize
  import opened DeflateSpec

  datatype State = BlockInit | LitblockHead | Litblock | Huff1 | Huff2 | Huff3 | Mainloop | Litbyte | Copy

  datatype Ret = RetDone | RetError | MoreInput | MoreOutput

  /** A place in inflate(), with the local variables that are live there. */
  datatype Point =
    | AtBlock
    | AtStored
    | AtRaw(len: nat)
    | AtDynamic
    | AtSized(sizes: nat)
    | AtLengths(sizes: nat)
    | AtTokens
    | AtLiteral(symbol: nat)
    | AtCopy(count: nat, back: nat)

  datatype Step = Goto(point: Point) | Return(ret: Ret)

  /** A prefix code together with the shape of the table that holds it. */
  datatype Code = Code(lens: lengths, layers: layermap, used: nat, bad: nat)

  /** The two codes of a block, and whether it is the last one. */
  datatype Codes = Codes(lit: lengths, dist: lengths, final: bool)

  /** Where a run of literals comes to a halt, if it does before anything else comes: for want of input or of
      room for the output. entry is where decoding is entered the next time. */
  datatype Course =
    | Elsewhere
    | Starves(pos: nat, out: seq<byte>, codes: Codes, entry: Point)
    | Pauses(symbol: nat, pos: nat, out: seq<byte>, codes: Codes)

  function Literals(t: bits, pos: nat, out: seq<byte>, room: nat, supplied: nat, c: Codes, entry: Point): Course
    decreases Rest(t, pos)
  {
    if supplied < pos + 48 then Starves(pos, out, c, entry)
    else
      match Decode(c.lit, t, pos)
      case None => Elsewhere
      case Some(n) =>
        if n >= 256 then Elsewhere
        else if room == 0 then Pauses(n, pos + c.lit[n], out, c)
        else Literals(t, pos + c.lit[n], out + [n], room - 1, supplied, c, entry)
  }

  ghost predicate Holds(tbl: seq<nat>, c: Code) {
    && |c.lens| <= 288 && c.bad < 512 && Usable(c.lens)
    && (Kraft(c.lens) < FULL ==> |c.lens| <= c.bad)
    && Tree(tbl, c.layers, HuffTable.AllCodes(c.lens), c.used, c.bad)
  }

  // ----- the bit buffer -----

  /** buf | x << n */
  function OrAt(buf: bits, x: bits, n: nat): (r: bits)
    ensures |r| == |buf|
  {
    seq(|buf|, i requires 0 <= i < |buf| => buf[i] || (n <= i < n + |x| && x[i - n]))
  }

  /** buf >> n */
  function ShiftRight(buf: bits, n: nat): (r: bits)
    requires n <= |buf|
    ensures |r| == |buf|
  {
    buf[n..] + Zeros(n)
  }

  /** The buffer holds the next nbits bits of the stream, and zeros above them. */
  ghost predicate Window(t: bits, pos: nat, buf: bits, nbits: int) {
    && |buf| == 64 && nbits <= 64
    && (forall i :: 0 <= i < 64 && nbits <= i ==> !buf[i])
    && (nbits >= 0 ==> pos + nbits <= |t| && buf[..nbits] == t[pos..pos + nbits])
  }

  lemma WindowOr(t: bits, pos: nat, buf: bits, nbits: nat, x: bits)
    requires Window(t, pos, buf, nbits) && nbits + |x| <= 64
    requires pos + nbits + |x| <= |t| && x == t[pos + nbits..pos + nbits + |x|]
    ensures Window(t, pos, OrAt(buf, x, nbits), nbits + |x|)
  {
    var b := OrAt(buf, x, nbits);
    assert b[..nbits] == buf[..nbits];
    assert b[nbits..nbits + |x|] == x;
    assert b[..nbits + |x|] == b[..nbits] + b[nbits..nbits + |x|];
    assert t[pos..pos + nbits + |x|] == t[pos..pos + nbits] + t[pos + nbits..pos + nbits + |x|];
  }

  lemma WindowShift(t: bits, pos: nat, buf: bits, nbits: int, n: nat)
    requires Window(t, pos, buf, nbits) && n <= 64
    ensures Window(t, pos + n, ShiftRight(buf, n), nbits - n)
    ensures nbits >= n ==> pos + n <= |t| && NatOf(buf[..n]) == Field(t, pos, n)
  {
    var b := ShiftRight(buf, n);
    if nbits >= n {
      assert b[..nbits - n] == buf[..nbits][n..];
      assert t[pos..pos + nbits][n..] == t[pos + n..pos + nbits];
      assert buf[..n] == buf[..nbits][..n] == t[pos..pos + nbits][..n] == t[pos..pos + n];
    }
  }

  lemma {:induction false} StreamSlice(data: seq<byte>, r: nat, k: nat)
    requires r + k <= |data|
    ensures Stream(data)[8 * r..8 * (r + k)] == Stream(data[r..r + k])
  {
    var a, b, c := data[..r], data[r..r + k], data[r + k..];
    assert data == a + (b + c);
    StreamConcat(a, b + c);
    StreamConcat(b, c);
    hide Stream;
    assert Stream(data) == Stream(a) + Stream(b) + Stream(c);
  }

  /** What a table walk on the buffer w may end on: the leaf of a codeword that w starts with, or the
      filler when there is none. */
  ghost predicate Lands(e: nat, c: Code, w: bits) {
    if e == c.bad then
      Kraft(c.lens) < FULL && forall n: nat :: n < |c.lens| && c.lens[n] > 0 ==> !Prefix(Codeword(c.lens, n), w)
    else
      var n := LeafSymbol(e);
      n < |c.lens| && c.lens[n] > 0 && e == Leaf(c.lens[n], n) && Prefix(Codeword(c.lens, n), w)
  }

  lemma LandsSlot(tbl: seq<nat>, c: Code, s: nat, w: bits)
    requires Holds(tbl, c) && |w| == 64 && s in c.layers && Prefix(c.layers[s], w)
    ensures SlotOf(c.layers[s], w) < Size(c.layers[s])
    ensures var e := At(tbl, s, SlotOf(c.layers[s], w));
      if IsLink(e) then
        && Target(e) in c.layers && Taken(e) == |c.layers[s]| + Width(c.layers[s]) <= 12
        && c.layers[Target(e)] == w[..Taken(e)] && |c.layers[s]| < Taken(e)
      else Lands(e, c, w) && e < 0x8000
  {
    var p := c.layers[s];
    SlotPathOf(p, w);
    var i := SlotOf(p, w);
    var e, q := At(tbl, s, i), SlotPath(p, i);
    var codes := HuffTable.AllCodes(c.lens);
    assert SlotOk(e, p, i, c.layers, codes, c.bad);
    assert Prefix(q, w);
    hide Codeword, Kraft, Usable, SlotPath, SlotOf, Comparable, HuffTable.AllCodes;
    if e == c.bad {
      NoCodeHere(c, q, w);
    } else if IsLink(e) {
      LinkFields(|q|, Target(e));
    } else {
      var m := LeafSymbol(e);
      LeafFields(|codes[m]|, m);
      PrefixTrans(codes[m], q, w);
    }
  }

  /** st is the entry of layer s that belongs to w. */
  ghost predicate Standing(tbl: seq<nat>, c: Code, s: nat, w: bits, st: nat) {
    && Holds(tbl, c) && |w| == 64 && s in c.layers && Prefix(c.layers[s], w)
    && SlotOf(c.layers[s], w) < Size(c.layers[s]) && s + Size(c.layers[s]) <= |tbl| && st == tbl[s + SlotOf(c.layers[s], w)]
  }

  lemma StandAt(tbl: seq<nat>, c: Code, s: nat, w: bits)
    requires Holds(tbl, c) && |w| == 64 && s in c.layers && Prefix(c.layers[s], w)
    ensures s + SlotOf(c.layers[s], w) < |tbl| && Standing(tbl, c, s, w, tbl[s + SlotOf(c.layers[s], w)])
  {
    LayerRoom(tbl, c, s);
    LandsSlot(tbl, c, s, w);
    hide Holds, Lands, SlotOf, Size, Prefix;
  }

  /** One entry of the walk: a link to the next layer, or the end. */
  lemma WalkStep(tbl: seq<nat>, c: Code, s: nat, w: bits, st: nat)
    requires Standing(tbl, c, s, w, st)
    ensures s in c.layers && |c.layers[s]| <= 12
    ensures !IsLink(st) ==> Lands(st, c, w) && st < 0x8000
    ensures IsLink(st) ==>
      && Taken(st) + 3 <= 64 && Target(st) in c.layers && |c.layers[s]| < |c.layers[Target(st)]|
      && Target(st) + NatOf(w[Taken(st)..Taken(st) + 3]) < |tbl|
      && Standing(tbl, c, Target(st), w, tbl[Target(st) + NatOf(w[Taken(st)..Taken(st) + 3])])
  {
    LandsSlot(tbl, c, s, w);
    LayerShape(tbl, c, s);
    hide Holds, Lands, Size, IsLink, Target, Taken;
    if IsLink(st) {
      LayerShape(tbl, c, Target(st));
      StandAt(tbl, c, Target(st), w);
    }
  }

  lemma LayerShape(tbl: seq<nat>, c: Code, s: nat)
    requires Holds(tbl, c) && s in c.layers
    ensures |c.layers[s]| <= 12 && (|c.layers[s]| > 0 ==> Width(c.layers[s]) == 3)
  {
  }

  lemma NoCodeHere(c: Code, q: bits, w: bits)
    requires |w| == 64 && Prefix(q, w) && |c.lens| <= 288 && Usable(c.lens)
    requires forall m :: m in HuffTable.AllCodes(c.lens) ==> !Comparable(HuffTable.AllCodes(c.lens)[m], q)
    ensures Kraft(c.lens) < FULL
    ensures forall n: nat :: n < |c.lens| && c.lens[n] > 0 ==> !Prefix(Codeword(c.lens, n), w)
  {
    forall n: nat | n < |c.lens| && c.lens[n] > 0
      ensures !Prefix(Codeword(c.lens, n), w)
    {
      assert HuffTable.AllCodes(c.lens)[n] == Codeword(c.lens, n);
      if Prefix(Codeword(c.lens, n), w) {
        TwoPrefixes(Codeword(c.lens, n), q, w);
      }
    }
    if Kraft(c.lens) == FULL {
      var n := Covered(c.lens, w[..16]);
      PrefixTrans(Codeword(c.lens, n), w[..16], w);
    }
  }

  /** Reading a symbol through the zero-padded buffer agrees with the stream: it is the symbol there if
      the buffer held all of its bits, and otherwise there is none. */
  lemma DecodeWindow(t: bits, pos: nat, buf: bits, nbits: int, c: Code, e: nat)
    requires Window(t, pos, buf, nbits) && (nbits >= 15 || pos + nbits == |t|)
    requires |c.lens| <= 288 && c.bad < 512 && Usable(c.lens) && Lands(e, c, buf) && e < 0x8000
    ensures e == c.bad || LeafLength(e) > nbits ==> Decode(c.lens, t, pos) == None
    ensures e != c.bad && LeafLength(e) <= nbits ==> Decode(c.lens, t, pos) == Some(LeafSymbol(e)) && LeafLength(e) == c.lens[LeafSymbol(e)]
    ensures LeafLength(e) <= 15 && (e == c.bad ==> LeafLength(e) == 0)
  {
    hide Kraft, Codeword;
    if e != c.bad {
      LeafFields(c.lens[LeafSymbol(e)], LeafSymbol(e));
    }
    forall m: nat | IsAt(c.lens, t, pos, m)
      ensures Prefix(Codeword(c.lens, m), buf) && c.lens[m] <= nbits
    {
      var l := c.lens[m];
      assert t[pos..pos + nbits][..l] == t[pos..pos + l];
      assert buf[..l] == buf[..nbits][..l];
    }
    if e != c.bad {
      var n := LeafSymbol(e);
      if c.lens[n] <= nbits {
        var l := c.lens[n];
        assert t[pos..pos + nbits][..l] == t[pos..pos + l];
        assert buf[..l] == buf[..nbits][..l];
        DecodeUnique(c.lens, t, pos, n);
      } else {
        forall m: nat
          ensures !IsAt(c.lens, t, pos, m)
        {
          TooLong(t, pos, buf, nbits, c, n, m);
        }
      }
    }
  }

  lemma TooLong(t: bits, pos: nat, buf: bits, nbits: int, c: Code, n: nat, m: nat)
    requires Kraft(c.lens) <= FULL && n < |c.lens| && c.lens[n] > nbits && c.lens[n] > 0
    requires Prefix(Codeword(c.lens, n), buf)
    requires IsAt(c.lens, t, pos, m) ==> Prefix(Codeword(c.lens, m), buf) && c.lens[m] <= nbits
    ensures !IsAt(c.lens, t, pos, m)
  {
    hide Kraft, Codeword;
    if IsAt(c.lens, t, pos, m) {
      TwoPrefixes(Codeword(c.lens, m), Codeword(c.lens, n), buf);
      PrefixFree(c.lens, m, n);
    }
  }

  lemma FirstWindow(t: bits)
    ensures Window(t, 0, Zeros(64), 0)
  {
  }

  lemma SliceSlice<X>(s: seq<X>, a: nat, b: nat, i: nat, n: nat)
    requires a <= b <= |s| && a + i + n <= b
    ensures s[a..b][i..i + n] == s[a + i..a + i + n]
  {
    var x, y := s[a..b][i..i + n], s[a + i..a + i + n];
    assert |x| == n == |y|;
    assert forall j :: 0 <= j < n ==> x[j] == s[a..b][i + j] == s[a + i + j] == y[j];
  }

  lemma RootLayer(tbl: seq<nat>, c: Code, w: bits)
    requires Holds(tbl, c) && |w| == 64
    ensures 0 in c.layers && c.layers[0] == [] && |tbl| >= 512
    ensures SlotOf([], w) == NatOf(w[..9]) && Prefix([], w)
  {
    assert w[0..9] == w[..9];
  }

  lemma LayerRoom(tbl: seq<nat>, c: Code, s: nat)
    requires Holds(tbl, c) && s in c.layers
    ensures s + Size(c.layers[s]) <= |tbl|
  {
  }

  class Inflator {
    // m_state, m_block_type, m_in_last, m_in_nbits, m_in_bits_buf
    var state: State
    var blockType: nat
    var inLast: bool
    var nbits: int
    var buf: bits
    // the current input chunk, m_in_at as an index into it
    var input: seq<byte>
    var inAt: nat
    // the previous and the current output chunk, m_out_at as an index into the latter
    var prev: array?<byte>
    var cur: array<byte>
    var outAt: nat
    // the two unions of saved locals
    var savedA: nat
    var savedB: nat
    var symbolLengths: lengths
    const huffSymbol: array<nat>
    const huffDistance: array<nat>

    // the whole input, the number of its bytes supplied so far, and the whole output so far
    ghost const total: seq<byte>
    ghost var fed: nat
    ghost var emitted: seq<byte>
    // the codes in the two tables
    ghost var symbolCode: Code
    ghost var distanceCode: Code

    ghost function T(): bits {
      Stream(total)
    }

    /** The number of input bits consumed. */
    ghost function Pos(): int
      reads this`nbits, this`input, this`inAt, this`fed
    {
      8 * (fed - (|input| - inAt)) - nbits
    }

    /** The current chunk is where it belongs in the whole input, and the bit buffer is a window on it.
        A negative bit count (an underflow) is possible only at the very end. */
    ghost predicate InputOk()
      reads this`nbits, this`buf, this`input, this`inAt, this`fed, this`inLast
    {
      && inAt <= |input| <= fed <= |total|
      && input == total[fed - |input|..fed]
      && (inLast ==> fed == |total|)
      && (nbits < 0 ==> AtEnd())
      && Pos() >= 0
      && Window(T(), Pos(), buf, nbits)
    }

    ghost predicate AtEnd()
      reads this`input, this`inAt, this`inLast
    {
      inLast && inAt == |input|
    }

    lemma EndPos()
      requires InputOk()
      ensures AtEnd() ==> Pos() + nbits == |T()|
      ensures Pos() + nbits <= |T()| && nbits <= 64 && Pos() >= 0
    {
    }

    // ----- setting up -----

    /** reset(), with no input and an empty output. */
    constructor (ghost input: seq<byte>)
      ensures Valid() && fresh(huffSymbol) && fresh(huffDistance) && fresh(cur)
      ensures total == input && fed == 0 && this.input == [] && inAt == 0 && !inLast
      ensures state == BlockInit && emitted == [] && prev == null && outAt == 0 && Pos() == 0 && nbits == 0
      ensures PointOk(Entry()) && MeaningAt(Entry()) == Block(Stream(input), 0, [])
    {
      hide *;
      state, blockType, inLast := BlockInit, 0, false;
      nbits, buf, this.input, inAt := 0, Zeros(64), [], 0;
      prev, cur, outAt := null, new byte[0], 0;
      savedA, savedB, symbolLengths := 0, 0, [];
      huffSymbol, huffDistance := new nat[1760], new nat[608];
      total, fed, emitted := input, 0, [];
      symbolCode, distanceCode := Code([], map[], 0, 0), Code([], map[], 0, 0);
      new;
      StartInput();
      StartOutput();
    }

    lemma StartInput()
      requires state == BlockInit && nbits == 0 && buf == Zeros(64) && input == [] && inAt == 0 && fed == 0 && emitted == [] && !inLast
      ensures InputOk() && Pos() == 0 && PointOk(Entry()) && MeaningAt(Entry()) == Block(Stream(total), 0, [])
    {
      hide Block, Stream, Window;
      FirstWindow(T());
    }

    lemma StartOutput()
      requires prev == null && outAt == 0 && |emitted| == 0 && cur.Length == 0
      requires huffSymbol != huffDistance && (huffSymbol as object) != cur && (huffDistance as object) != cur
      requires huffSymbol.Length == 1760 && huffDistance.Length == 608
      ensures OutputOk() && Separate() && (InputOk() ==> Valid())
    {
      hide InputOk;
    }

    /** set_input. The chunks make up the whole input; the last one is marked. */
    method SetInput(chunk: seq<byte>, last: bool)
      requires Valid() && inAt == |input| && !inLast && PointOk(Entry())
      requires fed + |chunk| <= |total| && chunk == total[fed..fed + |chunk|]
      requires last ==> fed + |chunk| == |total|
      modifies this`input, this`inAt, this`inLast, this`fed
      ensures Valid() && input == chunk && inAt == 0 && inLast == last && fed == old(fed) + |chunk| && Pos() == old(Pos())
      ensures PointOk(Entry()) && MeaningAt(Entry()) == old(MeaningAt(Entry()))
    {
      hide Block, DeflateSpec.Stored, Raw, Tokens, Dynamic, Sized, Lengths, Extend, Window, Holds, OutputOk, Separate, Tables;
      input, inAt, inLast := chunk, 0, last;
      fed := fed + |chunk|;
    }

    method SetOutputFirst(chunk: array<byte>)
      requires InputOk() && Separate() && |emitted| == 0 && PointOk(Entry())
      requires (huffSymbol as object) != chunk && (huffDistance as object) != chunk
      modifies this`prev, this`cur, this`outAt
      ensures Valid() && prev == null && cur == chunk && outAt == 0
      ensures PointOk(Entry()) && MeaningAt(Entry()) == old(MeaningAt(Entry()))
    {
      hide *;
      Apart();
      prev, cur, outAt := null, chunk, 0;
      assert InputOk();
      assert PointOk(Entry()) && MeaningAt(Entry()) == old(MeaningAt(Entry()));
      FirstOutput();
      WholeValid();
    }

    lemma FirstOutput()
      requires prev == null && outAt == 0 && |emitted| == 0
      ensures OutputOk()
    {
    }

    lemma Apart()
      ensures Separate() <==> (huffSymbol != huffDistance && huffSymbol.Length == 1760 && huffDistance.Length == 608
        && (huffSymbol as object) != cur && (huffDistance as object) != cur
        && (huffSymbol as object) != prev && (huffDistance as object) != prev)
    {
    }

    lemma WholeValid()
      requires InputOk() && OutputOk()
      requires huffSymbol != huffDistance && huffSymbol.Length == 1760 && huffDistance.Length == 608
      requires (huffSymbol as object) != cur && (huffDistance as object) != cur
      requires (huffSymbol as object) != prev && (huffDistance as object) != prev
      ensures Valid()
    {
    }

    /** set_output_grow: the only chunk was full and has been moved to a larger one. */
    method SetOutputGrow(chunk: array<byte>)
      requires Valid() && outAt == cur.Length && prev == null && PointOk(Entry())
      requires chunk.Length >= cur.Length && chunk[..cur.Length] == cur[..]
      requires (huffSymbol as object) != chunk && (huffDistance as object) != chunk
      modifies this`cur
      ensures Valid() && cur == chunk
      ensures PointOk(Entry()) && MeaningAt(Entry()) == old(MeaningAt(Entry()))
    {
      hide *;
      ValidParts();
      FullOutput();
      cur := chunk;
      assert InputOk();
      assert PointOk(Entry()) && MeaningAt(Entry()) == old(MeaningAt(Entry()));
      GrownOutput();
      WholeValid();
    }

    lemma ValidParts()
      requires Valid()
      ensures InputOk() && OutputOk() && huffSymbol != huffDistance && huffSymbol.Length == 1760 && huffDistance.Length == 608
      ensures (huffSymbol as object) != cur && (huffDistance as object) != cur
      ensures (huffSymbol as object) != prev && (huffDistance as object) != prev
    {
    }

    lemma FullOutput()
      requires OutputOk() && outAt == cur.Length
      ensures |emitted| >= outAt && cur[..] == emitted[|emitted| - outAt..]
      ensures prev == null ==> |emitted| == outAt
    {
      assert cur[..] == cur[..outAt];
    }

    lemma GrownOutput()
      requires outAt <= cur.Length && |emitted| == outAt && prev == null && cur[..outAt] == emitted[|emitted| - outAt..]
      ensures OutputOk()
    {
    }

    /** set_output_next: a new chunk, or the same one again. */
    method SetOutputNext(chunk: array<byte>)
      requires Valid() && outAt == cur.Length && cur.Length >= 32768 && chunk.Length >= 32768 && PointOk(Entry())
      requires (huffSymbol as object) != chunk && (huffDistance as object) != chunk
      modifies this`prev, this`cur, this`outAt
      ensures Valid() && prev == old(cur) && cur == chunk && outAt == 0
      ensures PointOk(Entry()) && MeaningAt(Entry()) == old(MeaningAt(Entry()))
    {
      hide *;
      ValidParts();
      FullOutput();
      prev, cur, outAt := cur, chunk, 0;
      assert InputOk();
      assert PointOk(Entry()) && MeaningAt(Entry()) == old(MeaningAt(Entry()));
      NextOutput();
      WholeValid();
    }

    lemma NextOutput()
      requires prev != null && outAt == 0 && 32768 <= cur.Length && 32768 <= prev.Length <= |emitted|
      requires prev[..] == emitted[|emitted| - prev.Length..]
      ensures OutputOk()
    {
      forall j | 0 <= j < prev.Length
        ensures prev[j] == emitted[|emitted| - prev.Length + j]
      {
        assert prev[..][j] == emitted[|emitted| - prev.Length..][j];
      }
    }

    /** Where the last chunk begins in the whole input. */
    ghost function LastFrom(): int
      reads this`input, this`fed
    {
      fed - |input|
    }

    /** The bytes of the last chunk of which no bit was consumed. */
    ghost function UnusedOfLast(): nat
      reads this`nbits, this`input, this`inAt, this`fed
    {
      Untouched(LastFrom(), fed, Pos())
    }

    /** unused_input: the whole bytes supplied but not consumed. These are those of the last chunk exactly if all
        earlier ones were used up; otherwise the whole bytes that are left of those count too. */
    method UnusedInput() returns (n: nat)
      requires InputOk() && 0 <= nbits
      ensures n == fed - (Pos() + 7) / 8 && (inLast ==> fed == |total|)
      ensures n == UnusedOfLast() <==> LastFrom() <= (Pos() + 7) / 8
      ensures LastFrom() > (Pos() + 7) / 8 ==> n == UnusedOfLast() + (LastFrom() - (Pos() + 7) / 8)
    {
      EndPos();
      Rounding(Pos(), nbits, |input| - inAt, fed);
      BytesFrom(LastFrom(), fed, Pos());
      n := |input| - inAt + nbits / 8;
    }

    // ----- reading bits -----

    /** Loads n whole bytes into the buffer, unchecked. */
    method Load(n: nat)
      requires InputOk() && 0 <= nbits && nbits + 8 * n <= 64 && inAt + n <= |input|
      modifies this`nbits, this`buf, this`inAt
      ensures InputOk() && Pos() == old(Pos()) && nbits == old(nbits) + 8 * n && inAt == old(inAt) + n
    {
      hide Window, Stream;
      ghost var pos, r := Pos(), fed - (|input| - inAt);
      EndPos();
      var x := Stream(input[inAt..inAt + n]);
      assert x == T()[pos + nbits..pos + nbits + 8 * n] by {
        StreamSlice(total, r, n);
        SliceSlice(total, fed - |input|, fed, inAt, n);
      }
      WindowOr(T(), pos, buf, nbits, x);
      buf := OrAt(buf, x, nbits);
      nbits := nbits + 8 * n;
      inAt := inAt + n;
    }

    method RefillAll()
      requires InputOk()
      modifies this`nbits, this`buf, this`inAt
      ensures InputOk() && Pos() == old(Pos()) && old(inAt) <= inAt && nbits == old(nbits) + 8 * (inAt - old(inAt))
      ensures inAt == |input| || nbits > 56
    {
      while inAt < |input| && nbits <= 64 - 8
        invariant InputOk() && Pos() == old(Pos()) && old(inAt) <= inAt && nbits == old(nbits) + 8 * (inAt - old(inAt))
        decreases |input| - inAt
      {
        Load(1);
      }
    }

    /** After an underflow, bit 5 of the wrapped bit count is set as well. */
    method RefillFast()
      requires InputOk() && -32 <= nbits < 64
      modifies this`nbits, this`buf, this`inAt
      ensures InputOk() && Pos() == old(Pos()) && nbits >= old(nbits) && nbits < 64
      ensures nbits < 32 ==> inAt == |input|
    {
      if nbits / 32 % 2 == 1 {
        return;
      }
      if |input| - inAt >= 4 {
        Load(4);
      } else {
        RefillAll();
      }
    }

    /** Reads n bits. Past the end of the input they read as zeros. */
    method Extract(n: nat) returns (r: nat)
      requires InputOk() && n <= 32 && (nbits >= n || AtEnd())
      modifies this`nbits, this`buf
      ensures InputOk() && Pos() == old(Pos()) + n && nbits == old(nbits) - n
      ensures nbits >= 0 ==> Pos() <= |T()| && r == Field(T(), old(Pos()), n)
      ensures r < Pow2(n)
    {
      hide Window, NatOf, Pow2, Stream, Field;
      BufferLength();
      WindowShift(T(), Pos(), buf, nbits, n);
      NatOfBound(buf[..n]);
      r := NatOf(buf[..n]);
      nbits := nbits - n;
      buf := ShiftRight(buf, n);
    }

    method Walk(table: array<nat>, ghost c: Code) returns (st: nat)
      requires Holds(table[..], c) && |buf| == 64
      ensures Lands(st, c, buf) && st < 0x8000
    {
      RootLayer(table[..], c, buf);
      hide *;
      ghost var s: nat := 0;
      StandAt(table[..], c, s, buf);
      st := table[NatOf(buf[..9])];
      WalkStep(table[..], c, s, buf, st);
      while IsLink(st)
        invariant Standing(table[..], c, s, buf, st) && s in c.layers
        decreases 64 - |c.layers[s]|
      {
        WalkStep(table[..], c, s, buf, st);
        s := Target(st);
        st := table[Target(st) + NatOf(buf[Taken(st)..Taken(st) + 3])];
      }
      WalkStep(table[..], c, s, buf, st);
    }

    method Discard(n: nat)
      requires InputOk() && n <= 15 && (nbits >= n || AtEnd())
      modifies this`nbits, this`buf
      ensures InputOk() && Pos() == old(Pos()) + n && nbits == old(nbits) - n
    {
      hide Window, Stream;
      BufferLength();
      WindowShift(T(), Pos(), buf, nbits, n);
      nbits := nbits - n;
      buf := ShiftRight(buf, n);
    }

    lemma BufferWindow()
      requires InputOk()
      ensures Pos() >= 0 && Window(T(), Pos(), buf, nbits) && (AtEnd() ==> Pos() + nbits == |T()|)
    {
      EndPos();
    }

    /** What HUFF_READ_FAST gives for the entry e that the walk ends on. */
    lemma Read(c: Code, e: nat, tbl: seq<nat>)
      requires InputOk() && (nbits >= 15 || AtEnd()) && Lands(e, c, buf) && e < 0x8000 && Holds(tbl, c)
      ensures LeafLength(e) <= 15
      ensures var d, r := Decode(c.lens, T(), Pos()), SymbolField(e);
        if d.Some? then LeafLength(e) == c.lens[d.value] <= nbits && r == SymbolField(Leaf(c.lens[d.value], d.value))
        else LeafLength(e) > nbits || (r == c.bad && LeafLength(e) == 0 && Kraft(c.lens) < FULL)
      ensures (SymbolField(e) == c.bad && Kraft(c.lens) < FULL) || (if SymbolField(e) == 384 then 256 else SymbolField(e)) < |c.lens|
    {
      BufferWindow();
      hide InputOk, Window, Stream, Kraft, Decode, Usable, Tree, Leaf;
      DecodeWindow(T(), Pos(), buf, nbits, c, e);
    }

    /** HUFF_READ_FAST: walks the table on the buffer. */
    method ReadHuffman(table: array<nat>, ghost c: Code) returns (r: nat)
      requires InputOk() && (nbits >= 15 || AtEnd())
      requires Holds(table[..], c)
      modifies this`nbits, this`buf
      ensures InputOk() && old(nbits) - 15 <= nbits <= old(nbits) && old(Pos()) <= Pos() <= old(Pos()) + 15
      ensures match Decode(c.lens, T(), old(Pos()))
        case Some(n) => nbits >= 0 && r == SymbolField(Leaf(c.lens[n], n)) && Pos() == old(Pos()) + c.lens[n]
        case None => nbits < 0 || (r == c.bad && Kraft(c.lens) < FULL)
      ensures (r == c.bad && Kraft(c.lens) < FULL) || (if r == 384 then 256 else r) < |c.lens|
    {
      BufferLength();
      hide InputOk, Holds, Kraft, Leaf, Decode, Lands, LeafLength, SymbolField, Window, Stream;
      var st := Walk(table, c);
      Read(c, st, table[..]);
      Discard(LeafLength(st));
      r := SymbolField(st);
    }

    // ----- writing bytes -----

    /** The current chunk holds the end of the output. Of the previous chunk, which may be the same array,
        the bytes that a copy can still reach are intact. */
    ghost predicate OutputOk()
      reads this`prev, this`cur, this`outAt, this`emitted, cur, prev
    {
      && outAt <= cur.Length && outAt <= |emitted|
      && cur[..outAt] == emitted[|emitted| - outAt..]
      && (prev == null ==> |emitted| == outAt)
      && (prev != null ==>
            && 32768 <= cur.Length && 32768 <= prev.Length && outAt + prev.Length <= |emitted|
            && forall j :: prev.Length - 32768 + outAt <= j < prev.Length ==>
                 prev[j] == emitted[|emitted| - outAt - prev.Length + j])
    }

    ghost predicate Separate()
      reads this`prev, this`cur
    {
      && huffSymbol != huffDistance
      && (huffSymbol as object) != cur && (huffDistance as object) != cur
      && (huffSymbol as object) != prev && (huffDistance as object) != prev
      && huffSymbol.Length == 1760 && huffDistance.Length == 608
    }

    method Emit(b: byte)
      requires OutputOk() && outAt < cur.Length
      modifies cur, this`outAt, this`emitted
      ensures OutputOk() && emitted == old(emitted) + [b] && outAt == old(outAt) + 1
    {
      cur[outAt] := b;
      emitted := emitted + [b];
      outAt := outAt + 1;
      assert cur[..outAt] == cur[..outAt - 1] + [b];
      assert emitted[|emitted| - outAt..] == old(emitted)[|old(emitted)| - old(outAt)..] + [b];
    }

    /** The byte dist places back in the output, when it lies in the previous chunk. */
    lemma InPrevious(dist: nat)
      requires OutputOk() && outAt < dist <= 32768 && dist <= |emitted|
      ensures prev != null && prev.Length + outAt >= dist
      ensures prev[prev.Length - (dist - outAt)] == emitted[|emitted| - dist]
      ensures outAt < cur.Length
    {
    }

    lemma InCurrent(dist: nat)
      requires OutputOk() && 1 <= dist <= outAt
      ensures cur[outAt - dist] == emitted[|emitted| - dist]
    {
      assert cur[..outAt][outAt - dist] == emitted[|emitted| - outAt..][outAt - dist];
    }

    method CopyPrevious(count: nat, dist: nat)
      requires OutputOk() && 1 <= dist <= 32768 && dist <= |emitted|
      requires outAt + count <= dist
      modifies cur, this`outAt, this`emitted
      ensures OutputOk() && emitted == Extend(old(emitted), dist, count) && outAt == old(outAt) + count
    {
      hide OutputOk;
      ghost var start := emitted;
      var src, k := 0, 0;
      if count > 0 {
        InPrevious(dist);
        src := prev.Length - (dist - outAt);
      }
      while k < count
        invariant k <= count && OutputOk() && outAt == old(outAt) + k
        invariant k < count ==> prev != null && src == prev.Length - (dist - old(outAt))
        invariant emitted == Extend(start, dist, k)
      {
        InPrevious(dist);
        ExtendSnoc(start, dist, k);
        Emit(prev[src + k]);
        k := k + 1;
      }
    }

    method CopyCurrent(count: nat, dist: nat)
      requires OutputOk() && 1 <= dist && (count > 0 ==> dist <= outAt) && outAt + count <= cur.Length
      requires dist <= |emitted|
      modifies cur, this`outAt, this`emitted
      ensures OutputOk() && emitted == Extend(old(emitted), dist, count) && outAt == old(outAt) + count
    {
      hide OutputOk;
      ghost var start := emitted;
      var k := 0;
      while k < count
        invariant k <= count && OutputOk() && outAt == old(outAt) + k
        invariant emitted == Extend(start, dist, k)
      {
        InCurrent(dist);
        ExtendSnoc(start, dist, k);
        Emit(cur[outAt - dist]);
        k := k + 1;
      }
    }

    method FromPrevious(len0: nat, dist: nat) returns (len: nat)
      requires OutputOk() && 1 <= dist <= 32768 && dist <= |emitted|
      modifies cur, this`outAt, this`emitted
      ensures OutputOk() && old(emitted) <= emitted
      ensures Extend(emitted, dist, len) == Extend(old(emitted), dist, len0)
      ensures |emitted| - outAt == old(|emitted| - outAt)
      ensures len == 0 || dist <= outAt
    {
      hide OutputOk, Extend;
      len := len0;
      if dist > outAt {
        var distPrev := dist - outAt;
        var lenActual := if len < distPrev then len else distPrev;
        ExtendSplit(emitted, dist, lenActual, len - lenActual);
        ExtendPrefix(emitted, dist, lenActual);
        CopyPrevious(lenActual, dist);
        len := len - lenActual;
      }
    }

    /** The copy: first from the previous chunk, then within the current one as far as it has room. */
    method CopyMatch(len0: nat, dist: nat) returns (len: nat)
      requires OutputOk() && 1 <= dist <= 32768 && dist <= |emitted|
      modifies cur, this`outAt, this`emitted
      ensures OutputOk() && old(emitted) <= emitted
      ensures Extend(emitted, dist, len) == Extend(old(emitted), dist, len0)
      ensures len == 0 ==> emitted == Extend(old(emitted), dist, len0)
      ensures |emitted| + len == |old(emitted)| + len0
      ensures |emitted| - outAt == old(|emitted| - outAt)
      ensures len == 0 || outAt == cur.Length
    {
      hide OutputOk, Extend;
      len := FromPrevious(len0, dist);
      OutputBounds();
      var lenActual := if len < cur.Length - outAt then len else cur.Length - outAt;
      ExtendSplit(emitted, dist, lenActual, len - lenActual);
      ExtendPrefix(emitted, dist, lenActual);
      CopyCurrent(lenActual, dist);
      len := len - lenActual;
      ExtendNone(emitted, dist);
    }

    lemma OutputBounds()
      requires OutputOk()
      ensures outAt <= cur.Length && outAt <= |emitted|
    {
    }

    // ----- what the decompressor still has to do -----

    ghost predicate Final()
      reads this`blockType
    {
      blockType % 2 == 1
    }

    ghost predicate Tables()
      reads this`symbolCode, this`distanceCode, huffSymbol, huffDistance
    {
      && Holds(huffSymbol[..], symbolCode) && Holds(huffDistance[..], distanceCode)
      && (Kraft(symbolCode.lens) < FULL ==> symbolCode.bad == 287)
      && (Kraft(distanceCode.lens) < FULL ==> distanceCode.bad == 31)
      && |distanceCode.lens| <= 32
    }

    /** In the symbol loop m_state is st_mainloop, or names the last pause for output in this block. */
    ghost predicate InLoop()
      reads this`state, this`savedA, this`savedB
    {
      || state == Mainloop
      || (state == Litbyte && savedA < 256)
      || (state == Copy && 1 <= savedA <= 258 && 1 <= savedB <= 32768)
    }

    /** What holds at a place in inflate(). */
    ghost predicate PointOk(p: Point)
      reads this`nbits, this`symbolCode, this`distanceCode, this`symbolLengths, this`state, this`savedA, this`savedB
      reads huffSymbol, huffDistance
    {
      match p
      case AtBlock => 0 <= nbits < 64
      case AtStored => 0 <= nbits < 64 && nbits % 8 == 0
      case AtRaw(len) => 0 <= nbits < 64 && nbits % 8 == 0 && len < 0x10000
      case AtDynamic => 0 <= nbits < 64
      case AtSized(sizes) => 0 <= nbits < 64 && sizes < 0x4000
      case AtLengths(sizes) =>
        && -7 <= nbits < 64 && sizes < 0x4000 && sizes % 32 <= 29 && sizes / 32 % 32 <= 29
        && Holds(huffSymbol[..], symbolCode) && |symbolCode.lens| == 19 && Kraft(symbolCode.lens) == FULL
        && |symbolLengths| <= sizes % 32 + 257 + sizes / 32 % 32 + 1
      case AtTokens => -7 <= nbits < 64 && Tables() && InLoop()
      case AtLiteral(symbol) => 0 <= nbits < 64 && symbol < 256 && Tables() && InLoop()
      case AtCopy(count, back) => 0 <= nbits < 64 && Tables() && count <= 258 && 1 <= back <= 32768 && InLoop()
    }

    /** What the rest of the input means from there on. */
    ghost function MeaningAt(p: Point): Outcome
      requires InputOk() && PointOk(p)
      reads this`nbits, this`symbolCode, this`distanceCode, this`symbolLengths, this`state, this`savedA, this`savedB
      reads this`buf, this`input, this`inAt, this`fed, this`inLast, this`emitted, this`blockType, huffSymbol, huffDistance
    {
      match p
      case AtBlock => Block(T(), Pos(), emitted)
      case AtStored => Stored(T(), Pos(), emitted, Final())
      case AtRaw(len) => Raw(T(), Pos(), emitted, len, Final())
      case AtDynamic => Dynamic(T(), Pos(), emitted, Final())
      case AtSized(sizes) => Sized(T(), Pos(), emitted, sizes % 32, sizes / 32 % 32, sizes / 1024, Final())
      case AtLengths(sizes) =>
        Lengths(T(), Pos(), emitted, symbolCode.lens, symbolLengths, sizes % 32 + 257, sizes / 32 % 32 + 1, Final())
      case AtTokens => Tokens(T(), Pos(), emitted, symbolCode.lens, distanceCode.lens, Final())
      case AtLiteral(symbol) => Tokens(T(), Pos(), emitted + [symbol], symbolCode.lens, distanceCode.lens, Final())
      case AtCopy(count, back) =>
        if back > |emitted| then Fail
        else Tokens(T(), Pos(), Extend(emitted, back, count), symbolCode.lens, distanceCode.lens, Final())
    }

    /** Where the switch on m_state goes. */
    function Entry(): Point
      reads this`state, this`savedA, this`savedB
    {
      PointOf(state, savedA, savedB)
    }

    static function PointOf(place: State, a: nat, b: nat): Point {
      match place
      case BlockInit => AtBlock
      case LitblockHead => AtStored
      case Litblock => AtRaw(a)
      case Huff1 => AtDynamic
      case Huff2 => AtSized(a)
      case Huff3 => AtLengths(a)
      case Mainloop => AtTokens
      case Litbyte => AtLiteral(a)
      case Copy => AtCopy(a, b)
    }

    ghost predicate Valid()
      reads this, cur, prev
    {
      InputOk() && OutputOk() && Separate()
    }

    lemma Parts()
      requires Valid()
      ensures InputOk() && OutputOk() && Separate() && outAt <= cur.Length && outAt <= |emitted| && Pos() >= 0
    {
      hide Window, Separate;
    }

    lemma Whole()
      requires InputOk() && OutputOk() && Separate()
      ensures Valid()
    {
      hide InputOk, OutputOk, Separate;
    }

    ghost predicate Pausing()
      reads this`state
    {
      state == Litbyte || state == Copy
    }

    /** Where decoding has to go on after a return. If input ran out in the symbol loop, that is the head
        of the loop, even if m_state still names an older pause for output. */
    ghost function ResumeAt(r: Ret): Point
      reads this`state, this`savedA, this`savedB
    {
      if r == MoreInput && Pausing() then AtTokens else Entry()
    }

    /** What a return value says about the meaning m of the input before the call. */
    ghost predicate Answered(r: Ret, m: Outcome)
      reads this, cur, prev, huffSymbol, huffDistance
    {
      match r
      case RetDone => Valid() && m == Done(emitted, Pos()) && 0 <= nbits < 64
      case RetError => m == Fail
      case MoreOutput => Valid() && outAt == cur.Length && PointOk(Entry()) && MeaningAt(Entry()) == m
      case MoreInput =>
        && Valid() && !inLast && inAt == |input| && 0 <= nbits < 57
        && PointOk(ResumeAt(r)) && MeaningAt(ResumeAt(r)) == m
    }

    lemma CopyPoint(c: nat, b: nat)
      requires InputOk()
      ensures PointOk(AtCopy(c, b)) <==> 0 <= nbits < 64 && Tables() && c <= 258 && 1 <= b <= 32768 && InLoop()
      ensures PointOk(AtCopy(c, b)) ==>
        MeaningAt(AtCopy(c, b)) ==
          if b > |emitted| then Fail
          else Tokens(T(), Pos(), Extend(emitted, b, c), symbolCode.lens, distanceCode.lens, Final())
    {
    }

    lemma TokensPoint()
      requires InputOk()
      ensures PointOk(AtTokens) <==> -7 <= nbits < 64 && Tables() && InLoop()
      ensures PointOk(AtTokens) ==> MeaningAt(AtTokens) == Tokens(T(), Pos(), emitted, symbolCode.lens, distanceCode.lens, Final())
    {
    }

    lemma Paused(p: Point, m: Outcome)
      requires Valid() && outAt == cur.Length && Entry() == p && PointOk(p) && MeaningAt(p) == m
      ensures Answered(MoreOutput, m)
    {
    }

    lemma PausedParts(m: Outcome)
      requires Answered(MoreOutput, m)
      ensures Valid() && outAt == cur.Length && PointOk(Entry()) && MeaningAt(Entry()) == m
    {
      hide Valid, PointOk, MeaningAt, Entry;
    }

    lemma StarvedParts(m: Outcome)
      requires Answered(MoreInput, m)
      ensures Valid() && !inLast && inAt == |input| && 0 <= nbits < 57
      ensures PointOk(ResumeAt(MoreInput)) && MeaningAt(ResumeAt(MoreInput)) == m
    {
      hide Valid, PointOk, MeaningAt, ResumeAt;
    }

    lemma DoneParts(m: Outcome)
      requires Answered(RetDone, m)
      ensures Valid() && InputOk() && 0 <= nbits && m == Done(emitted, Pos())
      ensures outAt <= cur.Length && outAt <= |emitted| && cur[..outAt] == emitted[|emitted| - outAt..]
      ensures prev == null ==> |emitted| == outAt
    {
      hide InputOk;
    }

    /** The outcome of NeedInput. */
    lemma Starved(p: Point, m: Outcome)
      requires Valid() && inAt == |input| && Entry() == p && !Pausing() && PointOk(p) && MeaningAt(p) == m && 0 <= nbits < 57
      requires inLast ==> m == Fail
      ensures Answered(if inLast then RetError else MoreInput, m)
    {
    }

    lemma Rejected(m: Outcome)
      requires m == Fail
      ensures Answered(RetError, m)
    {
    }

    lemma Finished(m: Outcome)
      requires Valid() && 0 <= nbits < 64 && m == Done(emitted, Pos())
      ensures Answered(RetDone, m)
    {
    }

    function Rank(p: Point): nat {
      match p
      case AtBlock => 0
      case AtTokens => 1
      case AtLiteral(_) => 2
      case AtCopy(_, _) => 2
      case AtRaw(_) => 1
      case AtLengths(_) => 2
      case AtStored => 0
      case AtDynamic => 0
      case AtSized(_) => 0
    }

    /** m_state is set, and do_ret_more_input follows. */
    method NeedInput(place: State, ghost p: Point, ghost m: Outcome) returns (s: Step)
      requires Valid() && inAt == |input| && 0 <= nbits < 57 && (inLast ==> m == Fail)
      requires place != Mainloop && place != Litbyte && place != Copy && p == PointOf(place, savedA, savedB)
      requires PointOk(p) && MeaningAt(p) == m
      modifies this`state
      ensures state == place && s == Return(if inLast then RetError else MoreInput) && Answered(s.ret, m)
    {
      hide OutputOk, Window, Stream, Block, DeflateSpec.Stored, Raw, Dynamic, Sized, Lengths, Tokens, Extend, Holds, Kraft, Tables, Separate, Answered;
      state := place;
      Starved(p, m);
      s := Return(if inLast then RetError else MoreInput);
    }

    /** The end of a block. */
    method EndBlock() returns (s: Step)
      requires Valid() && 0 <= nbits < 64
      ensures s.Goto? ==> s.point == AtBlock && Block(T(), Pos(), emitted) == Next(T(), Pos(), emitted, Final())
      ensures s.Return? ==> s.ret == RetDone && Next(T(), Pos(), emitted, Final()) == Done(emitted, Pos())
    {
      hide Block, Next;
      NextCases(T(), Pos(), emitted, Final());
      s := if blockType % 2 == 1 then Return(RetDone) else Goto(AtBlock);
    }

    /** Loads the tables of the fixed codes. */
    method FixedTables()
      requires Separate()
      modifies huffSymbol, huffDistance, this`symbolCode, this`distanceCode
      ensures Tables() && symbolCode.lens == FixedLiteral() && distanceCode.lens == FixedDistance()
    {
      var len: seq<nat> := seq(288, i => 0);
      var i := 0;
      while i <= 32
        invariant i <= 33 && |len| == 288 && forall j :: 0 <= j < i ==> len[j] == 5
      {
        len := len[i := 5];
        i := i + 1;
      }
      assert len[..32] == FixedDistance();
      FixedCodes.FixedComplete();
      ghost var layers, used;
      var ok;
      ok, layers, used := HuffTable.Unpack(huffDistance, len[..32], 0);
      distanceCode := Code(FixedDistance(), layers, used, 0);
      i := 0;
      while i < 288
        invariant i <= 288 && |len| == 288 && forall j :: 0 <= j < i ==> len[j] == FixedLiteral()[j]
      {
        len := len[i := if i <= 143 then 8 else if i <= 255 then 9 else if i <= 279 then 7 else 8];
        i := i + 1;
      }
      assert len == FixedLiteral();
      ok, layers, used := HuffTable.Unpack(huffSymbol, len, 0);
      symbolCode := Code(FixedLiteral(), layers, used, 0);
    }

    /** Discards the bits up to the next byte boundary of the stream. */
    method DropToByte()
      requires InputOk() && 0 <= nbits < 64
      modifies this`nbits, this`buf
      ensures InputOk() && Pos() == Align(old(Pos())) && 0 <= nbits < 64 && nbits % 8 == 0
    {
      hide Window, Stream, Align;
      BufferLength();
      var drop := nbits % 8;
      ToByte(Pos(), nbits);
      WindowShift(T(), Pos(), buf, nbits, drop);
      buf := ShiftRight(buf, drop);
      nbits := nbits - drop;
    }

    /** A block with the fixed codes comes next. */
    ghost predicate FixedNext()
      requires InputOk()
      reads this`nbits, this`input, this`inAt, this`fed, this`buf, this`inLast
    {
      Pos() + 3 <= |T()| && Field(T(), Pos(), 3) / 2 == 1
    }

    /** Behind the header at pos of such a block. */
    ghost predicate LoadedFixed(pos: int)
      reads this`nbits, this`input, this`inAt, this`fed, this`symbolCode, this`distanceCode, this`blockType, this`state
    {
      && Pos() == pos + 3 && 0 <= pos && pos + 3 <= |T()| && state == Mainloop
      && symbolCode.lens == FixedLiteral() && distanceCode.lens == FixedDistance() && (Final() <==> Field(T(), pos, 3) % 2 == 1)
    }

    method StepBlock() returns (s: Step)
      requires Valid() && PointOk(AtBlock)
      modifies this`state, this`blockType, this`nbits, this`buf, this`inAt, this`symbolCode, this`distanceCode, huffSymbol, huffDistance
      ensures s.Goto? ==> Valid() && PointOk(s.point) && MeaningAt(s.point) == old(MeaningAt(AtBlock)) && Pos() > old(Pos())
      ensures s.Return? ==> Answered(s.ret, old(MeaningAt(AtBlock)))
      ensures s != Return(MoreOutput)
      ensures state == old(state) || !Pausing()
      ensures !inLast ==> (s == Return(MoreInput) <==> 8 * fed - old(Pos()) < 10)
      ensures 8 * fed - old(Pos()) >= 10 && old(FixedNext()) ==> s == Goto(AtTokens) && LoadedFixed(old(Pos()))
    {
      hide Block, DeflateSpec.Stored, Raw, Tokens, Dynamic, Sized, Lengths, Window, FixedLiteral, FixedDistance, OutputOk, Holds, Stream, Field, Answered;
      ghost var m := MeaningAt(AtBlock);
      RefillFast();
      EndPos();
      if nbits < 3 + 7 {
        if inLast {
          TenBits(T(), Pos(), emitted);
        }
        s := NeedInput(BlockInit, AtBlock, m);
        return;
      }
      s := BlockKind();
      if s.Return? {
        Rejected(m);
      }
    }

    method BlockKind() returns (s: Step)
      requires Valid() && 10 <= nbits < 64
      modifies this`state, this`blockType, this`nbits, this`buf, this`symbolCode, this`distanceCode, huffSymbol, huffDistance
      ensures s.Goto? ==> Valid() && PointOk(s.point) && MeaningAt(s.point) == old(Block(T(), Pos(), emitted)) && Pos() > old(Pos())
      ensures s.Return? ==> s.ret == RetError && old(Block(T(), Pos(), emitted)) == Fail
      ensures state == old(state) || !Pausing()
      ensures old(FixedNext()) ==> s == Goto(AtTokens) && LoadedFixed(old(Pos()))
    {
      hide Block, DeflateSpec.Stored, Raw, Tokens, Dynamic, Sized, Lengths, Window, FixedLiteral, FixedDistance, OutputOk, Tables, Stream, Field, Pow2, Align, Holds, InputOk, Pos;
      EndPos();
      BlockCases(T(), Pos(), emitted);
      blockType := Extract(3);
      if blockType < 1 * 2 {
        DropToByte();
        s := Goto(AtStored);
      } else if blockType < 3 * 2 {
        if blockType / 4 % 2 == 1 {
          s := Goto(AtDynamic);
        } else {
          LoadFixed();
          s := Goto(AtTokens);
        }
      } else {
        s := Return(RetError);
      }
    }

    method LoadFixed()
      requires Valid()
      modifies this`state, huffSymbol, huffDistance, this`symbolCode, this`distanceCode
      ensures Valid() && Tables() && state == Mainloop
      ensures symbolCode.lens == FixedLiteral() && distanceCode.lens == FixedDistance()
    {
      hide Tables, FixedLiteral, FixedDistance, InputOk, OutputOk;
      FixedTables();
      state := Mainloop;
    }

    method StepStored() returns (s: Step)
      requires Valid() && PointOk(AtStored)
      modifies this`state, this`nbits, this`buf, this`inAt
      ensures s.Goto? ==> Valid() && PointOk(s.point) && MeaningAt(s.point) == old(MeaningAt(AtStored)) && Pos() > old(Pos())
      ensures s.Return? ==> Answered(s.ret, old(MeaningAt(AtStored)))
      ensures s != Return(MoreOutput)
      ensures state == old(state) || !Pausing()
    {
      hide Block, DeflateSpec.Stored, Raw, Tokens, Dynamic, Sized, Lengths, OutputOk, Holds, Stream, Field, Window, NatOf, Separate, Pow2, Answered;
      ghost var m := MeaningAt(AtStored);
      RefillFast();
      EndPos();
      ghost var pos := Pos();
      StoredCases(T(), pos, emitted, Final());
      if nbits < 32 {
        s := NeedInput(LitblockHead, AtStored, m);
        return;
      }
      var len := StoredLength();
      if len >= 0x10000 {
        Rejected(m);
        s := Return(RetError);
        return;
      }
      s := Goto(AtRaw(len));
    }

    /** Reads LEN and NLEN at once; the result has upper bits if they do not match. */
    method StoredLength() returns (len: nat)
      requires InputOk() && 32 <= nbits
      modifies this`nbits, this`buf
      ensures InputOk() && Pos() == old(Pos()) + 32 <= |T()| && nbits == old(nbits) - 32
      ensures Field(T(), old(Pos()) + 16, 16) == 0xFFFF - Field(T(), old(Pos()), 16) ==> len == Field(T(), old(Pos()), 16) < 0x10000
      ensures Field(T(), old(Pos()) + 16, 16) != 0xFFFF - Field(T(), old(Pos()), 16) ==> len >= 0x10000
    {
      hide Window, Stream, NatOf;
      BufferLength();
      EndPos();
      var lo, hi := buf[..16], buf[16..32];
      WindowShift(T(), Pos(), buf, nbits, 16);
      WindowShift(T(), Pos() + 16, ShiftRight(buf, 16), nbits - 16, 16);
      assert ShiftRight(buf, 16)[..16] == hi;
      // len ^ ((~len) << 16)
      len := NatOf(lo + Xor(hi, Not(lo)));
      Complement(lo, hi);
      WindowShift(T(), Pos(), buf, nbits, 32);
      nbits := nbits - 32;
      buf := ShiftRight(buf, 32);
    }

    lemma BufferLength()
      requires InputOk()
      ensures |buf| == 64
    {
    }

    /** The next stream byte when the bit buffer is empty. */
    lemma NextByte()
      requires InputOk() && nbits == 0 && inAt < |input|
      ensures Pos() + 8 <= |T()| && Field(T(), Pos(), 8) == input[inAt]
    {
      hide Window, Pow2;
      var r, b := fed - (|input| - inAt), input[inAt];
      StreamSlice(total, r, 1);
      assert total[r..r + 1] == [b];
      StreamByte(b);
    }

    /** One byte from the bit buffer. */
    method RawBufferedByte(len: nat)
      requires Valid() && PointOk(AtRaw(len)) && nbits != 0 && len != 0 && outAt < cur.Length
      modifies this`nbits, this`buf, this`outAt, this`emitted, cur
      ensures Valid() && PointOk(AtRaw(len - 1)) && Pos() == old(Pos()) + 8
      ensures Raw(T(), Pos(), emitted, len - 1, Final()) == old(Raw(T(), Pos(), emitted, len, Final()))
      ensures old(emitted) <= emitted && |emitted| == |old(emitted)| + 1 && outAt == old(outAt) + 1
    {
      hide Raw, Valid, InputOk, OutputOk, Window, Stream, Field, Separate;
      Parts();
      EndPos();
      RawStep(T(), Pos(), emitted, len, Final());
      var b := Extract(8);
      assert OutputOk() && Separate();
      Emit(b);
      assert InputOk() && Separate();
      Whole();
    }

    /** Copies from the bit buffer. */
    method RawBuffered(len0: nat) returns (len: nat)
      requires Valid() && PointOk(AtRaw(len0))
      modifies this`nbits, this`buf, this`outAt, this`emitted, cur
      ensures Valid() && PointOk(AtRaw(len)) && len <= len0
      ensures Raw(T(), Pos(), emitted, len, Final()) == old(Raw(T(), Pos(), emitted, len0, Final()))
      ensures old(emitted) <= emitted && |emitted| - |old(emitted)| <= Pos() - old(Pos())
      ensures |emitted| - outAt == old(|emitted| - outAt)
      ensures nbits == 0 || len == 0 || outAt == cur.Length
    {
      hide Raw, OutputOk, Window, Stream, Separate;
      len := len0;
      while nbits != 0 && len != 0 && outAt != cur.Length
        invariant Valid() && PointOk(AtRaw(len)) && len <= len0
        invariant Raw(T(), Pos(), emitted, len, Final()) == old(Raw(T(), Pos(), emitted, len0, Final()))
        invariant old(emitted) <= emitted && |emitted| - |old(emitted)| <= Pos() - old(Pos())
        invariant |emitted| - outAt == old(|emitted| - outAt)
        decreases len
      {
        OutputBounds();
        RawBufferedByte(len);
        len := len - 1;
      }
    }

    /** One byte of the memcpy from input to output. */
    method RawByte(len: nat)
      requires Valid() && nbits == 0 && len > 0 && inAt < |input| && outAt < cur.Length
      modifies this`inAt, this`outAt, this`emitted, cur
      ensures Valid() && inAt == old(inAt) + 1 && outAt == old(outAt) + 1 && Pos() == old(Pos()) + 8
      ensures Raw(T(), Pos(), emitted, len - 1, Final()) == old(Raw(T(), Pos(), emitted, len, Final()))
      ensures old(emitted) <= emitted && |emitted| == |old(emitted)| + 1
    {
      hide Raw, OutputOk, Stream, Field, Separate, Window;
      NextByte();
      RawStep(T(), Pos(), emitted, len, Final());
      EmptyWindow(T(), Pos(), buf);
      Emit(input[inAt]);
      inAt := inAt + 1;
    }

    /** Copies straight from the input. */
    method RawDirect(len0: nat) returns (len: nat)
      requires Valid() && PointOk(AtRaw(len0)) && (nbits == 0 || len0 == 0)
      modifies this`inAt, this`outAt, this`emitted, cur
      ensures Valid() && PointOk(AtRaw(len)) && len <= len0
      ensures Raw(T(), Pos(), emitted, len, Final()) == old(Raw(T(), Pos(), emitted, len0, Final()))
      ensures old(emitted) <= emitted && |emitted| - |old(emitted)| <= Pos() - old(Pos())
      ensures |emitted| - outAt == old(|emitted| - outAt)
      ensures len == 0 || inAt == |input| || outAt == cur.Length
    {
      OutputBounds();
      hide *;
      var inLeft, outLeft := |input| - inAt, cur.Length - outAt;
      var lenActual := if len0 <= inLeft && len0 <= outLeft then len0 else if inLeft <= outLeft then inLeft else outLeft;
      len := len0;
      var k := 0;
      while k < lenActual
        invariant k <= lenActual && len == len0 - k && inAt == old(inAt) + k && outAt == old(outAt) + k
        invariant Valid() && PointOk(AtRaw(len)) && (nbits == 0 || len == 0)
        invariant Raw(T(), Pos(), emitted, len, Final()) == old(Raw(T(), Pos(), emitted, len0, Final()))
        invariant |emitted| - outAt == old(|emitted| - outAt)
        invariant old(emitted) <= emitted && |emitted| - |old(emitted)| <= Pos() - old(Pos())
      {
        RawByte(len);
        len := len - 1;
        k := k + 1;
      }
    }

    /** The output is full in a stored block. */
    method RawNeedsRoom(len: nat, ghost m: Outcome) returns (s: Step)
      requires Valid() && outAt == cur.Length && PointOk(AtRaw(len)) && MeaningAt(AtRaw(len)) == m
      modifies this`state, this`savedA
      ensures state == Litblock && savedA == len && s == Return(MoreOutput) && Answered(s.ret, m)
    {
      hide Valid, InputOk, OutputOk, Separate, Raw, Window, Stream, Answered;
      Parts();
      state := Litblock;
      savedA := len;
      assert InputOk() && OutputOk() && Separate();
      Whole();
      Paused(AtRaw(len), m);
      s := Return(MoreOutput);
    }

    /** After the bit buffer is used up, or the block's bytes are. */
    method StepRawDirect(len0: nat, ghost m: Outcome) returns (s: Step)
      requires Valid() && PointOk(AtRaw(len0)) && (nbits == 0 || len0 == 0) && m == Raw(T(), Pos(), emitted, len0, Final())
      modifies this`state, this`savedA, this`inAt, this`outAt, this`emitted, cur
      ensures s.Goto? ==> Valid() && s.point == AtBlock && PointOk(s.point) && MeaningAt(s.point) == m && Pos() >= old(Pos())
      ensures s.Return? ==> Answered(s.ret, m)
      ensures s == Return(MoreOutput) ==> state == Litblock && savedA > 0
      ensures old(emitted) <= emitted && |emitted| - |old(emitted)| <= Pos() - old(Pos())
      ensures |emitted| - outAt == old(|emitted| - outAt)
      ensures state == old(state) || !Pausing()
    {
      hide Block, Next, Raw, Valid, InputOk, OutputOk, Window, Stream, Field, Holds, Separate, Pow2, Answered;
      var len := RawDirect(len0);
      Parts();
      if len != 0 {
        if inAt == |input| {
          savedA := len;
          assert InputOk() && OutputOk() && Separate();
          Whole();
          EndPos();
          RawStep(T(), Pos(), emitted, len, Final());
          s := NeedInput(Litblock, AtRaw(len), m);
        } else {
          s := RawNeedsRoom(len, m);
        }
        return;
      }
      RawEnd(T(), Pos(), emitted, Final());
      s := EndBlock();
      if s.Return? {
        Finished(m);
      }
    }

    method StepRaw(len0: nat) returns (s: Step)
      requires Valid() && PointOk(AtRaw(len0))
      modifies this`state, this`savedA, this`nbits, this`buf, this`inAt, this`outAt, this`emitted, cur
      ensures s.Goto? ==> Valid() && s.point == AtBlock && PointOk(s.point) && MeaningAt(s.point) == old(MeaningAt(AtRaw(len0))) && Pos() >= old(Pos())
      ensures s.Return? ==> Answered(s.ret, old(MeaningAt(AtRaw(len0))))
      ensures s == Return(MoreOutput) ==> state == Litblock && savedA > 0
      ensures old(emitted) <= emitted && |emitted| - |old(emitted)| <= Pos() - old(Pos())
      ensures |emitted| - outAt == old(|emitted| - outAt)
      ensures state == old(state) || !Pausing()
    {
      hide Block, Next, Raw, OutputOk, Window, Stream, Field, Holds, Separate, Pow2, Answered;
      ghost var m := MeaningAt(AtRaw(len0));
      var len := RawBuffered(len0);
      if nbits != 0 && len != 0 {
        s := RawNeedsRoom(len, m);
        return;
      }
      s := StepRawDirect(len, m);
    }

    method StepDynamic() returns (s: Step)
      requires Valid() && PointOk(AtDynamic)
      modifies this`state, this`nbits, this`buf, this`inAt
      ensures s.Goto? ==> Valid() && PointOk(s.point) && MeaningAt(s.point) == old(MeaningAt(AtDynamic)) && Pos() > old(Pos())
      ensures s.Return? ==> Answered(s.ret, old(MeaningAt(AtDynamic)))
      ensures s != Return(MoreOutput)
      ensures state == old(state) || !Pausing()
    {
      hide Dynamic, Sized, OutputOk, Window, Stream, Field, Holds, Separate, Pow2, Answered;
      ghost var m := MeaningAt(AtDynamic);
      RefillFast();
      EndPos();
      DynamicCases(T(), Pos(), emitted, Final());
      if nbits < 5 + 5 + 4 {
        s := NeedInput(Huff1, AtDynamic, m);
        return;
      }
      var sizes := Extract(5 + 5 + 4);
      s := Goto(AtSized(sizes));
    }

    /** Reads the code lengths of the code length alphabet. */
    method ReadAlphabet(hclen: nat) returns (al: seq<nat>)
      requires Valid() && 4 <= hclen <= 19 && hclen * 3 <= nbits
      modifies this`nbits, this`buf
      ensures Valid() && Pos() == old(Pos()) + 3 * hclen && nbits == old(nbits) - 3 * hclen
      ensures Pos() <= |T()| && al == Alphabet(T(), old(Pos()), hclen)
    {
      hide OutputOk, Window, Stream, Field, Separate, Alphabet, Pow2;
      ghost var pos := Pos();
      EndPos();
      al := seq(19, i => 0);
      AlphabetStart(T(), pos);
      var i := 0;
      while i < hclen
        invariant i <= hclen && Valid() && Pos() == pos + 3 * i && nbits == old(nbits) - 3 * i
        invariant al == Alphabet(T(), pos, i)
      {
        AlphabetStep(T(), pos, i);
        var n := Extract(3);
        al := al[Order(i) := n];
        i := i + 1;
      }
      EndPos();
    }

    method StepSized(sizes: nat) returns (s: Step)
      requires Valid() && PointOk(AtSized(sizes))
      modifies this`state, this`savedA, this`nbits, this`buf, this`inAt, this`symbolLengths, this`symbolCode, huffSymbol
      ensures s.Goto? ==> Valid() && PointOk(s.point) && MeaningAt(s.point) == old(MeaningAt(AtSized(sizes))) && Pos() > old(Pos())
      ensures s.Return? ==> Answered(s.ret, old(MeaningAt(AtSized(sizes))))
      ensures s != Return(MoreOutput)
      ensures state == old(state) || !Pausing()
    {
      hide Sized, Lengths, OutputOk, Window, Stream, Field, Holds, Alphabet, Kraft, Answered;
      ghost var m := MeaningAt(AtSized(sizes));
      var hlit, hdist, hclen := sizes % 32 + 257, sizes / 32 % 32 + 1, sizes / 1024 + 4;
      SizedCases(T(), Pos(), emitted, sizes % 32, sizes / 32 % 32, sizes / 1024, Final());
      if hlit > 286 || hdist > 30 {
        Rejected(m);
        s := Return(RetError);
        return;
      }
      RefillAll();
      EndPos();
      if nbits < hclen * 3 {
        savedA := sizes;
        s := NeedInput(Huff2, AtSized(sizes), m);
        return;
      }
      s := ReadSized(sizes, hclen);
      if s.Return? {
        Rejected(m);
      }
    }

    method ReadSized(sizes: nat, hclen: nat) returns (s: Step)
      requires Valid() && hclen == sizes / 1024 + 4 && hclen * 3 <= nbits && sizes < 0x4000
      requires sizes % 32 <= 29 && sizes / 32 % 32 <= 29
      modifies this`nbits, this`buf, this`symbolLengths, this`symbolCode, huffSymbol
      ensures s.Goto? ==> s.point == AtLengths(sizes) && Valid() && PointOk(s.point) && Pos() > old(Pos())
      ensures s.Goto? ==> MeaningAt(s.point) == old(Sized(T(), Pos(), emitted, sizes % 32, sizes / 32 % 32, sizes / 1024, Final()))
      ensures s.Return? ==> s.ret == RetError && old(Sized(T(), Pos(), emitted, sizes % 32, sizes / 32 % 32, sizes / 1024, Final())) == Fail
    {
      hide Sized, Lengths, OutputOk, Window, Stream, Field, Holds, Alphabet, Kraft;
      EndPos();
      SizedCases(T(), Pos(), emitted, sizes % 32, sizes / 32 % 32, sizes / 1024, Final());
      var al := ReadAlphabet(hclen);
      var ok := LoadAlphabet(al);
      if !ok {
        s := Return(RetError);
        return;
      }
      symbolLengths := [];
      s := Goto(AtLengths(sizes));
    }

    method LoadAlphabet(al: seq<nat>) returns (ok: bool)
      requires |al| == 19 && (forall i :: 0 <= i < 19 ==> al[i] <= 7) && Separate()
      modifies huffSymbol, this`symbolCode
      ensures ok <==> Kraft(al) == FULL
      ensures ok ==> Holds(huffSymbol[..], symbolCode) && symbolCode.lens == al
    {
      hide Kraft;
      ghost var layers, used;
      if Kraft(al) == FULL {
        TableSize.FitsShort(al);
      }
      ok, layers, used := HuffTable.Unpack(huffSymbol, al, 19);
      symbolCode := Code(al, layers, used, 19);
    }

    /** A repeat count: n extra bits on top of base, for the length last. */
    method Repeats(sizes: nat, last: nat, n: nat, base: nat, ghost m: Outcome) returns (s: Step)
      requires Valid() && PointOk(AtLengths(sizes)) && 0 <= nbits && n <= 7 && (nbits >= n || AtEnd()) && last <= 15
      requires m == if Pos() + n > |T()| then Fail
                    else Lengths(T(), Pos() + n, emitted, symbolCode.lens, symbolLengths + Repeat(last, Field(T(), Pos(), n) + base),
                                 sizes % 32 + 257, sizes / 32 % 32 + 1, Final())
      modifies this`nbits, this`buf, this`symbolLengths
      ensures s.Goto? ==> s.point == AtLengths(sizes) && Valid() && PointOk(s.point) && Pos() >= old(Pos())
      ensures s.Goto? ==> MeaningAt(s.point) == m
      ensures s.Return? ==> s.ret == RetError && m == Fail
    {
      hide OutputOk, Window, Stream, Field, Holds, Kraft, Lengths, Separate;
      EndPos();
      ghost var pos := Pos();
      var extra := Extract(n);
      var rep := extra + base;
      EndPos();
      if |symbolLengths| + rep > sizes % 32 + 257 + sizes / 32 % 32 + 1 {
        if pos + n <= |T()| {
          LengthsPastEnd(T(), pos + n, emitted, symbolCode.lens, symbolLengths + Repeat(last, rep), sizes % 32 + 257, sizes / 32 % 32 + 1, Final());
        }
        s := Return(RetError);
        return;
      }
      AppendRepeat(last, rep);
      if pos + n > |T()| {
        LengthsPastEnd(T(), Pos(), emitted, symbolCode.lens, symbolLengths, sizes % 32 + 257, sizes / 32 % 32 + 1, Final());
      }
      s := Goto(AtLengths(sizes));
    }

    method AppendRepeat(last: nat, rep: nat)
      requires last <= 15
      modifies this`symbolLengths
      ensures symbolLengths == old(symbolLengths) + Repeat(last, rep)
    {
      var j := 0;
      assert symbolLengths == symbolLengths + Repeat(last, 0);
      while j < rep
        invariant j <= rep && symbolLengths == old(symbolLengths) + Repeat(last, j)
      {
        assert Repeat(last, j) + [last] == Repeat(last, j + 1);
        assert symbolLengths + [last] == old(symbolLengths) + (Repeat(last, j) + [last]);
        symbolLengths := symbolLengths + [last];
        j := j + 1;
      }
    }

    /** One symbol of the code length alphabet. */
    method StepLengths(sizes: nat) returns (s: Step)
      requires Valid() && PointOk(AtLengths(sizes))
      requires |symbolLengths| < sizes % 32 + 257 + sizes / 32 % 32 + 1
      modifies this`state, this`savedA, this`nbits, this`buf, this`inAt, this`symbolLengths
      ensures s.Goto? ==> Valid() && PointOk(s.point) && MeaningAt(s.point) == old(MeaningAt(AtLengths(sizes))) && Pos() > old(Pos())
      ensures s.Return? ==> Answered(s.ret, old(MeaningAt(AtLengths(sizes))))
      ensures s != Return(MoreOutput)
      ensures state == old(state) || !Pausing()
    {
      hide Lengths, OutputOk, Window, Stream, Field, Holds, Kraft, Decode, Separate, Answered;
      ghost var m := MeaningAt(AtLengths(sizes));
      RefillFast();
      if 0 <= nbits < 15 + 7 && !inLast {
        savedA := sizes;
        s := NeedInput(Huff3, AtLengths(sizes), m);
        return;
      }
      s := ReadLength(sizes);
      if s.Return? {
        Rejected(m);
      }
    }

    method ReadLength(sizes: nat) returns (s: Step)
      requires Valid() && PointOk(AtLengths(sizes))
      requires |symbolLengths| < sizes % 32 + 257 + sizes / 32 % 32 + 1
      requires nbits >= 15 + 7 || AtEnd()
      modifies this`nbits, this`buf, this`symbolLengths
      ensures s.Goto? ==> Valid() && PointOk(s.point) && MeaningAt(s.point) == old(MeaningAt(AtLengths(sizes))) && Pos() > old(Pos())
      ensures s.Return? ==> s.ret == RetError && old(MeaningAt(AtLengths(sizes))) == Fail
    {
      hide Lengths, OutputOk, Window, Stream, Field, Holds, Kraft, Decode, Separate, Leaf, Align, Block, Dynamic, T;
      EndPos();
      ghost var cl, lens, hlit, hdist := symbolCode.lens, symbolLengths, sizes % 32 + 257, sizes / 32 % 32 + 1;
      LengthsStep(T(), Pos(), emitted, cl, lens, hlit, hdist, Final());
      ghost var d, m := Decode(cl, T(), Pos()), MeaningAt(AtLengths(sizes));
      var sym := ReadHuffman(huffSymbol, symbolCode);
      if nbits < 0 {
        s := Return(RetError);
        return;
      }
      SmallSymbol(cl[d.value], d.value);
      EndPos();
      if sym <= 15 {
        symbolLengths := symbolLengths + [sym];
        s := Goto(AtLengths(sizes));
      } else if sym == 16 {
        if |symbolLengths| == 0 {
          s := Return(RetError);
          return;
        }
        s := Repeats(sizes, symbolLengths[|symbolLengths| - 1], 2, 3, m);
      } else {
        s := Repeats(sizes, 0, (sym - 17) * 4 + 3, (sym - 17) * 8 + 3, m);
      }
    }

    /** All code lengths are known: builds the two tables. */
    method LengthsDone(sizes: nat) returns (s: Step)
      requires Valid() && PointOk(AtLengths(sizes))
      requires |symbolLengths| == sizes % 32 + 257 + sizes / 32 % 32 + 1
      modifies this`state, this`symbolCode, this`distanceCode, huffSymbol, huffDistance
      ensures s.Goto? ==> s.point == AtTokens && Valid() && PointOk(s.point) && MeaningAt(s.point) == old(MeaningAt(AtLengths(sizes)))
      ensures s.Return? ==> s.ret == RetError && old(MeaningAt(AtLengths(sizes))) == Fail
      ensures state == old(state) || !Pausing()
    {
      hide Lengths, OutputOk, Window, Stream, Holds, Kraft, Tokens, Usable;
      var hlit, hdist := sizes % 32 + 257, sizes / 32 % 32 + 1;
      LengthsEnd(T(), Pos(), emitted, symbolCode.lens, symbolLengths, hlit, hdist, Final());
      var ok := LoadSymbols(symbolLengths[..hlit]);
      if !ok {
        s := Return(RetError);
        return;
      }
      ok := LoadDistances(symbolLengths[hlit..]);
      if !ok {
        s := Return(RetError);
        return;
      }
      state := Mainloop;
      s := Goto(AtTokens);
    }

    /** while (i < hlit+hdist) */
    method LengthsHead(sizes: nat) returns (s: Step)
      requires Valid() && PointOk(AtLengths(sizes))
      modifies this`state, this`savedA, this`nbits, this`buf, this`inAt, this`symbolLengths, this`symbolCode, this`distanceCode, huffSymbol, huffDistance
      ensures s.Goto? ==> Valid() && PointOk(s.point) && MeaningAt(s.point) == old(MeaningAt(AtLengths(sizes)))
      ensures s.Goto? ==> Pos() > old(Pos()) || (Pos() == old(Pos()) && s.point == AtTokens)
      ensures s.Return? ==> Answered(s.ret, old(MeaningAt(AtLengths(sizes))))
      ensures s != Return(MoreOutput)
      ensures state == old(state) || !Pausing()
    {
      LengthsPoint(sizes);
      hide *;
      Parts();
      ghost var m := MeaningAt(AtLengths(sizes));
      if |symbolLengths| < sizes % 32 + 257 + sizes / 32 % 32 + 1 {
        s := StepLengths(sizes);
      } else {
        s := LengthsDone(sizes);
        FailAnswered(s, m);
      }
    }

    lemma LengthsPoint(sizes: nat)
      ensures PointOk(AtLengths(sizes)) ==> |symbolLengths| <= sizes % 32 + 257 + sizes / 32 % 32 + 1
    {
    }

    method LoadSymbols(lens: lengths) returns (ok: bool)
      requires |lens| <= 286 && Separate()
      modifies huffSymbol, this`symbolCode
      ensures ok <==> Usable(lens)
      ensures ok ==> Holds(huffSymbol[..], symbolCode) && symbolCode.lens == lens && symbolCode.bad == 287
    {
      hide Kraft;
      ghost var layers, used;
      if Kraft(lens) == FULL {
        TableSize.Fits286(lens);
      }
      ok, layers, used := HuffTable.Unpack(huffSymbol, lens, 287);
      symbolCode := Code(lens, layers, used, 287);
    }

    method LoadDistances(lens: lengths) returns (ok: bool)
      requires |lens| <= 30 && Separate()
      modifies huffDistance, this`distanceCode
      ensures ok <==> Usable(lens)
      ensures ok ==> Holds(huffDistance[..], distanceCode) && distanceCode.lens == lens && distanceCode.bad == 31
    {
      hide Kraft;
      ghost var layers, used;
      if Kraft(lens) == FULL {
        TableSize.Fits30(lens);
      }
      ok, layers, used := HuffTable.Unpack(huffDistance, lens, 31);
      distanceCode := Code(lens, layers, used, 31);
    }

    // ----- the symbol loop -----

    /** The refill at the head of the symbol loop. Afterwards either 48 bits are buffered, or 32 with four
        more bytes to come, or everything that is left. */
    method MainRefill() returns (starved: bool)
      requires InputOk() && -7 <= nbits < 64
      modifies this`nbits, this`buf, this`inAt
      ensures InputOk() && Pos() == old(Pos()) && -7 <= nbits <= 64
      ensures starved ==> !inLast && inAt == |input| && 0 <= nbits < 48
      ensures !inLast ==> (starved <==> 8 * fed - Pos() < 48)
      ensures !starved ==> nbits >= 48 || AtEnd() || (nbits >= 32 && |input| - inAt >= 4)
    {
      hide Window, Stream;
      starved := false;
      if |input| - inAt >= 8 {
        if nbits <= 32 {
          Load(4);
        }
      } else {
        while nbits <= 56 && inAt != |input|
          invariant InputOk() && Pos() == old(Pos()) && -7 <= nbits <= 64
          invariant nbits > 56 || |input| - inAt < 8
          decreases |input| - inAt
        {
          Load(1);
        }
        if 0 <= nbits < 48 && !inLast {
          starved := true;
        }
      }
    }

    method StepTokens() returns (s: Step)
      requires Valid() && PointOk(AtTokens)
      modifies this`nbits, this`buf, this`inAt
      ensures s.Goto? ==> Valid() && PointOk(s.point) && MeaningAt(s.point) == old(MeaningAt(AtTokens)) && Pos() > old(Pos())
      ensures s.Return? ==> s.ret != MoreOutput
      ensures s.Return? && s.ret != MoreInput ==> Answered(s.ret, old(MeaningAt(AtTokens)))
      ensures s == Return(MoreInput) ==>
        && Valid() && !inLast && inAt == |input| && 0 <= nbits < 57
        && PointOk(AtTokens) && MeaningAt(AtTokens) == old(MeaningAt(AtTokens))
      ensures !inLast ==> (s == Return(MoreInput) <==> 8 * fed - old(Pos()) < 48)
      ensures s == Return(MoreInput) ==> Pos() == old(Pos())
      ensures s == Return(MoreInput) || match old(Decode(symbolCode.lens, T(), Pos()))
        case Some(n) => n < 256 ==> s == Goto(AtLiteral(n)) && Pos() == old(Pos()) + symbolCode.lens[n]
        case None => true
    {
      hide OutputOk, Window, Stream, Holds, Tables, Separate, Tokens, Decode;
      ghost var m := MeaningAt(AtTokens);
      var starved := MainRefill();
      if starved {
        s := Return(MoreInput);
        return;
      }
      s := ReadToken(m);
    }

    method ReadToken(ghost m: Outcome) returns (s: Step)
      requires Valid() && Tables() && InLoop() && -7 <= nbits <= 64
      requires nbits >= 48 || AtEnd() || (nbits >= 32 && |input| - inAt >= 4)
      requires m == Tokens(T(), Pos(), emitted, symbolCode.lens, distanceCode.lens, Final())
      modifies this`nbits, this`buf, this`inAt
      ensures s.Goto? ==> Valid() && PointOk(s.point) && MeaningAt(s.point) == m && Pos() > old(Pos())
      ensures s.Return? ==> s.ret == RetDone || s.ret == RetError
      ensures s.Return? ==> Answered(s.ret, m)
      ensures match old(Decode(symbolCode.lens, T(), Pos()))
        case Some(n) => n < 256 ==> s == Goto(AtLiteral(n)) && Pos() == old(Pos()) + symbolCode.lens[n]
        case None => true
    {
      hide OutputOk, Window, Stream, Field, Holds, Kraft, Decode, Separate, Leaf, SymbolField, Tokens, Next, Block, Distance, LengthBase, LengthExtra, Dynamic;
      ghost var d := Decode(symbolCode.lens, T(), Pos());
      TokensStep(T(), Pos(), emitted, symbolCode.lens, distanceCode.lens, Final());
      var symbol := ReadHuffman(huffSymbol, symbolCode);
      if nbits < 0 {
        s := Return(RetError);
        return;
      }
      SymbolCases(symbolCode, huffSymbol[..], d, symbol);
      EndPos();
      if symbol < 256 {
        s := Goto(AtLiteral(symbol));
      } else if symbol <= 285 {
        s := ReadCopy(symbol, m);
      } else if symbol == 384 {
        s := EndBlock();
      } else {
        s := Return(RetError);
      }
    }

    method Detail(symbol: nat) returns (extra: nat, base: nat)
      requires 257 <= symbol <= 285
      ensures extra == LengthExtra(symbol) && base == LengthBase(symbol) && base + Pow2(extra) - 1 <= 258
    {
      var detail := SYM_DETAIL[symbol - 257];
      Details(symbol);
      LengthRange(symbol);
      extra, base := detail / 4096, detail % 512;
    }

    /** Length and distance of a copy. */
    method ReadCopy(symbol: nat, ghost m: Outcome) returns (s: Step)
      requires Valid() && Tables() && InLoop() && 257 <= symbol <= 285
      requires 0 <= nbits < 64 && (nbits >= 33 || AtEnd() || (nbits >= 17 && |input| - inAt >= 4))
      requires var p := Pos() + LengthExtra(symbol);
        m == if p > |T()| then Fail
             else Distance(T(), p, emitted, symbolCode.lens, distanceCode.lens, Final(),
                           LengthBase(symbol) + Field(T(), Pos(), LengthExtra(symbol)))
      modifies this`nbits, this`buf, this`inAt
      ensures s.Goto? ==> s.point.AtCopy? && Valid() && PointOk(s.point) && MeaningAt(s.point) == m && Pos() >= old(Pos())
      ensures s.Return? ==> s.ret == RetError && m == Fail
    {
      hide OutputOk, Window, Stream, Field, Tables, Decode, Separate, Tokens, Distance, LengthBase, LengthExtra, Pow2;
      EndPos();
      var extra, base := Detail(symbol);
      var len := Extract(extra);
      EndPos();
      len := len + base;
      if nbits >= 15 + 13 || nbits < 0 {
      } else if inAt != |input| {
        Load(4);
      }
      s := ReadDistance(len, m);
    }

    /** The distance, up to the checks before the copy. Past the end of the input the bits read as zeros,
        and one of the last two checks rejects. */
    method ReadDistance(len: nat, ghost m: Outcome) returns (s: Step)
      requires Valid() && Tables() && InLoop() && len <= 258 && nbits < 64 && (nbits >= 28 || AtEnd())
      requires m == if nbits < 0 then Fail
                    else Distance(T(), Pos(), emitted, symbolCode.lens, distanceCode.lens, Final(), len)
      modifies this`nbits, this`buf
      ensures s.Goto? ==> s.point.AtCopy? && Valid() && PointOk(s.point) && MeaningAt(s.point) == m && Pos() >= old(Pos())
      ensures s.Return? ==> s.ret == RetError && m == Fail
    {
      hide OutputOk, Window, Stream, Field, Holds, Kraft, Decode, Separate, Leaf, Tokens, Distance, DistanceBase, DistanceExtra, SymbolField;
      EndPos();
      ghost var d := Decode(distanceCode.lens, T(), Pos());
      ghost var under := nbits < 0;
      DistanceStep(T(), Pos(), emitted, symbolCode.lens, distanceCode.lens, Final(), len);
      var distKey := ReadHuffman(huffDistance, distanceCode);
      if d.Some? {
        SmallSymbol(distanceCode.lens[d.value], d.value);
      }
      EndPos();
      var distBase, distBits := DistanceParts(distKey);
      if distKey >= 30 {
        // The base alone exceeds 32768, so the check below fails whatever the extra bits are.
        s := Return(RetError);
        return;
      }
      s := FinishDistance(len, distBase, distBits, m);
    }

    method FinishDistance(len: nat, distBase: nat, distBits: nat, ghost m: Outcome) returns (s: Step)
      requires Valid() && Tables() && InLoop() && len <= 258 && nbits < 64 && distBits <= 13 && (nbits >= distBits || AtEnd())
      requires 1 <= distBase && distBase + Pow2(distBits) - 1 <= 32768
      requires m == if nbits < distBits then Fail
                    else
                      var d := distBase + Field(T(), Pos(), distBits);
                      if d > |emitted| then Fail
                      else Tokens(T(), Pos() + distBits, Extend(emitted, d, len), symbolCode.lens, distanceCode.lens, Final())
      modifies this`nbits, this`buf
      ensures s.Goto? ==> s.point.AtCopy? && Valid() && PointOk(s.point) && MeaningAt(s.point) == m && Pos() >= old(Pos())
      ensures s.Return? ==> s.ret == RetError && m == Fail
    {
      hide OutputOk, Window, Stream, Field, Holds, Tables, Separate, Tokens, Extend;
      EndPos();
      var dist := Extract(distBits);
      dist := dist + distBase;
      if dist > 32768 {
        s := Return(RetError);
        return;
      }
      if nbits < 0 {
        s := Return(RetError);
        return;
      }
      s := Goto(AtCopy(len, dist));
    }

    method StepLiteral(symbol: nat) returns (s: Step)
      requires Valid() && PointOk(AtLiteral(symbol))
      modifies this`state, this`savedA, this`outAt, this`emitted, cur
      ensures s.Goto? ==> s.point == AtTokens && Valid() && PointOk(s.point) && MeaningAt(s.point) == old(MeaningAt(AtLiteral(symbol)))
      ensures s.Return? ==> s.ret == MoreOutput && Answered(s.ret, old(MeaningAt(AtLiteral(symbol))))
      ensures s.Return? ==> emitted == old(emitted) && Entry() == AtLiteral(symbol)
      ensures s.Goto? ==> emitted == old(emitted) + [symbol] && outAt == old(outAt) + 1
      ensures s.Return? <==> old(outAt) == cur.Length
      ensures |emitted| - outAt == old(|emitted| - outAt)
      ensures s.Goto? ==> state == old(state) && savedA == old(savedA)
    {
      hide Valid, InputOk, OutputOk, Separate, Tables, Window, Stream, Answered, Block, DeflateSpec.Stored, Raw, Dynamic, Sized, Lengths, Tokens, Extend;
      Parts();
      ghost var m := MeaningAt(AtLiteral(symbol));
      if outAt == cur.Length {
        state := Litbyte;
        savedA := symbol;
        Paused(AtLiteral(symbol), m);
        s := Return(MoreOutput);
        return;
      }
      Emit(symbol);
      assert InputOk() && Separate();
      Whole();
      s := Goto(AtTokens);
    }

    /** The output is full in the middle of a copy. */
    method CopyNeedsRoom(len: nat, back: nat, ghost m: Outcome) returns (s: Step)
      requires Valid() && outAt == cur.Length && 0 < len <= 258 && 1 <= back <= 32768 && 0 <= nbits < 64 && Tables()
      requires m == if back > |emitted| then Fail
                    else Tokens(T(), Pos(), Extend(emitted, back, len), symbolCode.lens, distanceCode.lens, Final())
      modifies this`state, this`savedA, this`savedB
      ensures state == Copy && savedA == len && savedB == back && s == Return(MoreOutput) && Answered(s.ret, m)
    {
      hide Valid, InputOk, OutputOk, Stream, Tables, Tokens, Extend, Separate, Answered, PointOk, MeaningAt;
      Parts();
      savedA := len;
      savedB := back;
      state := Copy;
      assert InputOk() && OutputOk() && Separate();
      Whole();
      CopyPoint(len, back);
      Paused(AtCopy(len, back), m);
      s := Return(MoreOutput);
    }

    method StepCopy(count: nat, back: nat) returns (s: Step)
      requires Valid() && PointOk(AtCopy(count, back))
      modifies this`state, this`savedA, this`savedB, this`outAt, this`emitted, cur
      ensures s.Goto? ==> s.point == AtTokens && Valid() && PointOk(s.point) && MeaningAt(s.point) == old(MeaningAt(AtCopy(count, back)))
      ensures s.Return? ==> s.ret != MoreInput && Answered(s.ret, old(MeaningAt(AtCopy(count, back))))
      ensures old(emitted) <= emitted
      ensures |emitted| - outAt == old(|emitted| - outAt)
      ensures s.Goto? ==> |emitted| == |old(emitted)| + count
      ensures s == Return(MoreOutput) ==> Entry().AtCopy? && Entry().count > 0 && |emitted| + Entry().count == |old(emitted)| + count
      ensures s != Return(MoreOutput) ==> state == old(state)
    {
      hide Valid, InputOk, OutputOk, Stream, Tables, Tokens, Extend, Separate, Answered, PointOk, MeaningAt;
      Parts();
      CopyPoint(count, back);
      Reach(back);
      ghost var m := MeaningAt(AtCopy(count, back));
      if back > outAt && prev == null {
        Rejected(m);
        s := Return(RetError);
        return;
      }
      var len := CopyMatch(count, back);
      assert InputOk() && Separate();
      Whole();
      if len != 0 {
        s := CopyNeedsRoom(len, back, m);
        return;
      }
      TokensPoint();
      s := Goto(AtTokens);
    }

    /** An upper bound of the length of the output that is non-increasing: every bit still to be read may
        stand for at most 258 bytes. */
    ghost function Bound(p: Point): int
      reads this`nbits, this`input, this`inAt, this`fed, this`emitted
    {
      |emitted| + (match p case AtLiteral(_) => 1 case AtCopy(c, _) => c case _ => 0) + 258 * (|T()| - Pos())
    }

    lemma BoundLow(p: Point)
      requires InputOk() && PointOk(p)
      ensures |emitted| <= Bound(p) + 258 * 8
    {
      hide InputOk, Tables, Holds, T;
      EndPos();
      assert nbits >= -7;
    }

    /** At a pause for output, at least one more byte is certain to come. */
    ghost predicate Owing(p: Point) {
      p.AtLiteral? || (p.AtCopy? && p.count > 0) || (p.AtRaw? && p.len > 0)
    }

    // ----- where a run of literals halts -----

    ghost function CodesNow(): Codes
      reads this`symbolCode, this`distanceCode, this`blockType
    {
      Codes(symbolCode.lens, distanceCode.lens, Final())
    }

    ghost function CourseOf(p: Point): Course
      requires Valid() && PointOk(p)
      reads this, cur, prev, huffSymbol, huffDistance
    {
      if inLast then Elsewhere
      else
        var room := cur.Length - outAt;
        match p
        case AtBlock =>
          if 8 * fed - Pos() >= 10 && FixedNext() then
            Literals(T(), Pos() + 3, emitted, room, 8 * fed, Codes(FixedLiteral(), FixedDistance(), Field(T(), Pos(), 3) % 2 == 1), AtTokens)
          else Elsewhere
        case AtTokens => Literals(T(), Pos(), emitted, room, 8 * fed, CodesNow(), Entry())
        case AtLiteral(n) =>
          if room == 0 then Pauses(n, Pos(), emitted, CodesNow())
          else Literals(T(), Pos(), emitted + [n], room - 1, 8 * fed, CodesNow(), Entry())
        case _ => Elsewhere
    }

    /** The return value and the state are those of the course. */
    ghost predicate Met(r: Ret, c: Course)
      reads this
    {
      match c
      case Elsewhere => true
      case Starves(pos, out, codes, entry) => r == MoreInput && Pos() == pos && emitted == out && CodesNow() == codes && Entry() == entry
      case Pauses(n, pos, out, codes) => r == MoreOutput && Pos() == pos && emitted == out && CodesNow() == codes && Entry() == AtLiteral(n)
    }

    lemma LaterCourse(p: Point)
      requires Valid() && PointOk(p) && !p.AtBlock? && !p.AtTokens? && !p.AtLiteral?
      ensures CourseOf(p) == Elsewhere && forall r :: Met(r, CourseOf(p))
    {
      hide InputOk, OutputOk, Tables, Holds, Separate;
    }

    lemma BlockCourse()
      requires Valid() && PointOk(AtBlock)
      ensures CourseOf(AtBlock) ==
        if inLast || 8 * fed - Pos() < 10 || !FixedNext() then Elsewhere
        else Literals(T(), Pos() + 3, emitted, cur.Length - outAt, 8 * fed, Codes(FixedLiteral(), FixedDistance(), Field(T(), Pos(), 3) % 2 == 1), AtTokens)
    {
      hide InputOk, OutputOk, Separate, FixedNext, Literals, FixedLiteral, FixedDistance, Field, T;
    }

    lemma TokensCourse()
      requires Valid() && PointOk(AtTokens)
      ensures CourseOf(AtTokens) ==
        if inLast then Elsewhere else Literals(T(), Pos(), emitted, cur.Length - outAt, 8 * fed, CodesNow(), Entry())
    {
      hide InputOk, OutputOk, Separate, FixedNext, Literals, FixedLiteral, FixedDistance, Field, T, Tables;
    }

    lemma LiteralCourse(n: nat)
      requires Valid() && PointOk(AtLiteral(n))
      ensures CourseOf(AtLiteral(n)) ==
        if inLast then Elsewhere
        else if cur.Length == outAt then Pauses(n, Pos(), emitted, CodesNow())
        else Literals(T(), Pos(), emitted + [n], cur.Length - outAt - 1, 8 * fed, CodesNow(), Entry())
    {
      hide InputOk, OutputOk, Separate, FixedNext, Literals, FixedLiteral, FixedDistance, Field, T, Tables;
    }

    /** From the head of the symbol loop. */
    lemma NextCourse()
      requires Valid() && PointOk(AtTokens) && !inLast
      ensures 8 * fed - Pos() < 48 ==> CourseOf(AtTokens) == Starves(Pos(), emitted, CodesNow(), Entry())
      ensures 8 * fed - Pos() >= 48 ==>
        match Decode(symbolCode.lens, T(), Pos())
        case None => CourseOf(AtTokens) == Elsewhere
        case Some(n) =>
          if n >= 256 then CourseOf(AtTokens) == Elsewhere
          else if cur.Length == outAt then CourseOf(AtTokens) == Pauses(n, Pos() + symbolCode.lens[n], emitted, CodesNow())
          else CourseOf(AtTokens) == Literals(T(), Pos() + symbolCode.lens[n], emitted + [n], cur.Length - outAt - 1, 8 * fed, CodesNow(), Entry())
    {
      TokensCourse();
      hide InputOk, OutputOk, Separate, FixedNext, FixedLiteral, FixedDistance, Field, T, Tables, CourseOf, Decode;
    }

    method CourseBlock() returns (s: Step)
      requires Valid() && PointOk(AtBlock)
      modifies this`state, this`blockType, this`nbits, this`buf, this`inAt, this`symbolCode, this`distanceCode, huffSymbol, huffDistance
      ensures s.Goto? ==> Valid() && PointOk(s.point) && MeaningAt(s.point) == old(MeaningAt(AtBlock)) && Pos() > old(Pos())
      ensures s.Return? ==> Answered(s.ret, old(MeaningAt(AtBlock)))
      ensures s != Return(MoreOutput)
      ensures state == old(state) || !Pausing()
      ensures old(CourseOf(AtBlock)) == Elsewhere || (s.Goto? && CourseOf(s.point) == old(CourseOf(AtBlock)))
    {
      hide InputOk, Valid, PointOk, MeaningAt, Answered, CourseOf, FixedNext, Literals, FixedLiteral, FixedDistance, Field, T, Pausing;
      BlockCourse();
      s := StepBlock();
      if s == Goto(AtTokens) {
        TokensCourse();
      }
    }

    method CourseTokens() returns (s: Step)
      requires Valid() && PointOk(AtTokens)
      modifies this`nbits, this`buf, this`inAt
      ensures s.Goto? ==> Valid() && PointOk(s.point) && MeaningAt(s.point) == old(MeaningAt(AtTokens)) && Pos() > old(Pos())
      ensures s.Return? ==> s.ret != MoreOutput && Answered(s.ret, old(MeaningAt(AtTokens)))
      ensures s.Goto? ==> old(CourseOf(AtTokens)) == Elsewhere || CourseOf(s.point) == old(CourseOf(AtTokens))
      ensures s.Return? ==> Met(s.ret, old(CourseOf(AtTokens)))
    {
      hide InputOk, OutputOk, Separate, PointOk, MeaningAt, Answered, CourseOf, Literals, T, Decode;
      TokensCourse();
      if !inLast {
        NextCourse();
      }
      s := StepTokens();
      TokensAnswered(s, old(MeaningAt(AtTokens)));
      if s.Goto? && s.point.AtLiteral? {
        LiteralCourse(s.point.symbol);
      }
    }

    method CourseLiteral(symbol: nat) returns (s: Step)
      requires Valid() && PointOk(AtLiteral(symbol))
      modifies this`state, this`savedA, this`outAt, this`emitted, cur
      ensures s.Goto? ==> s.point == AtTokens && Valid() && PointOk(s.point) && MeaningAt(s.point) == old(MeaningAt(AtLiteral(symbol)))
      ensures s.Return? ==> s.ret == MoreOutput && Answered(s.ret, old(MeaningAt(AtLiteral(symbol))))
      ensures s.Return? ==> emitted == old(emitted) && Entry() == AtLiteral(symbol)
      ensures s.Goto? ==> emitted == old(emitted) + [symbol] && |emitted| - outAt == old(|emitted| - outAt)
      ensures s.Return? ==> |emitted| - outAt == old(|emitted| - outAt)
      ensures s.Goto? ==> state == old(state)
      ensures s.Goto? ==> old(CourseOf(AtLiteral(symbol))) == Elsewhere || CourseOf(s.point) == old(CourseOf(AtLiteral(symbol)))
      ensures s.Return? ==> Met(s.ret, old(CourseOf(AtLiteral(symbol))))
    {
      hide InputOk, Valid, PointOk, MeaningAt, Answered, CourseOf, Literals, T;
      LiteralCourse(symbol);
      s := StepLiteral(symbol);
      if s.Goto? {
        TokensCourse();
      }
    }

    /** One step of inflate(). */
    method Advance(p: Point) returns (s: Step)
      requires Valid() && PointOk(p)
      modifies this`state, this`savedA, this`savedB, this`blockType, this`nbits, this`buf, this`inAt, this`outAt, this`emitted
      modifies this`symbolLengths, this`symbolCode, this`distanceCode, huffSymbol, huffDistance, cur
      ensures s.Goto? ==> Valid() && PointOk(s.point) && MeaningAt(s.point) == old(MeaningAt(p))
      ensures s.Goto? ==> Pos() > old(Pos()) || (Pos() == old(Pos()) && Rank(s.point) < Rank(p))
      ensures s.Return? ==> Answered(s.ret, old(MeaningAt(p)))
      ensures old(emitted) <= emitted
      ensures |emitted| - outAt == old(|emitted| - outAt)
      ensures s != Return(MoreOutput) && Pausing() ==> state == old(state)
      ensures s.Goto? ==> Bound(s.point) <= old(Bound(p))
      ensures s == Return(MoreOutput) ==> Bound(Entry()) <= old(Bound(p)) && Owing(Entry())
      ensures s.Goto? ==> old(CourseOf(p)) == Elsewhere || CourseOf(s.point) == old(CourseOf(p))
      ensures s.Return? ==> Met(s.ret, old(CourseOf(p)))
    {
      hide InputOk, Answered, Holds, Tables, OutputOk, Separate, Block, Tokens, Raw, Lengths, Sized, Dynamic, DeflateSpec.Stored, Extend, CourseOf, Literals;
      if !p.AtBlock? && !p.AtTokens? && !p.AtLiteral? {
        LaterCourse(p);
      }
      match p
      case AtBlock => s := CourseBlock();
      case AtStored => s := StepStored();
      case AtRaw(len) => s := StepRaw(len);
      case AtDynamic => s := StepDynamic();
      case AtSized(sizes) => s := StepSized(sizes);
      case AtLengths(sizes) => s := LengthsHead(sizes);
      case AtTokens => s := CourseTokens();
      case AtLiteral(symbol) => s := CourseLiteral(symbol);
      case AtCopy(count, back) => s := StepCopy(count, back);
    }

    lemma TokensAnswered(s: Step, m: Outcome)
      requires s == Return(MoreInput) ==> Valid() && !inLast && inAt == |input| && 0 <= nbits < 57 && PointOk(AtTokens) && MeaningAt(AtTokens) == m
      ensures s == Return(MoreInput) ==> Answered(s.ret, m)
    {
    }

    lemma FailAnswered(s: Step, m: Outcome)
      ensures s == Return(RetError) && m == Fail ==> Answered(s.ret, m)
    {
    }

    /** inflate(): decodes until it is done, fails, or starves. */
    method Inflate() returns (r: Ret)
      requires Valid() && PointOk(Entry())
      modifies this`state, this`savedA, this`savedB, this`blockType, this`nbits, this`buf, this`inAt, this`outAt, this`emitted
      modifies this`symbolLengths, this`symbolCode, this`distanceCode, huffSymbol, huffDistance, cur
      ensures Answered(r, old(MeaningAt(Entry())))
      ensures old(emitted) <= emitted
      ensures |emitted| - outAt == old(|emitted| - outAt)
      ensures r != MoreOutput && Pausing() ==> state == old(state)
      ensures r == MoreOutput ==> Bound(Entry()) <= old(Bound(Entry())) && Owing(Entry())
      ensures Met(r, old(CourseOf(Entry())))
    {
      hide InputOk, Answered, Holds, Tables, OutputOk, Separate, MeaningAt, CourseOf, Literals;
      var point := Entry();
      while true
        invariant Valid() && PointOk(point) && MeaningAt(point) == old(MeaningAt(Entry()))
        invariant old(emitted) <= emitted
        invariant |emitted| - outAt == old(|emitted| - outAt)
        invariant Pausing() ==> state == old(state)
        invariant Bound(point) <= old(Bound(Entry()))
        invariant old(CourseOf(Entry())) == Elsewhere || CourseOf(point) == old(CourseOf(Entry()))
        decreases |T()| + 64 - Pos(), Rank(point)
      {
        EndPos();
        var s := Advance(point);
        if s.Return? {
          r := s.ret;
          return;
        }
        point := s.point;
        EndPos();
      }
    }

    lemma Reach(back: nat)
      requires OutputOk() && back <= 32768
      ensures back > outAt && prev == null ==> back > |emitted|
      ensures back <= outAt || prev != null ==> back <= |emitted|
    {
    }
  }

  lemma ExtendNone(out: seq<byte>, dist: nat)
    requires 1 <= dist <= |out|
    ensures Extend(out, dist, 0) == out
  {
  }

  /** Base length and number of extra bits of the length symbols, packed as base + (extra << 12). */
  const SYM_DETAIL: seq<nat> := [
    3 + 0 * 4096, 4 + 0 * 4096, 5 + 0 * 4096, 6 + 0 * 4096, 7 + 0 * 4096, 8 + 0 * 4096, 9 + 0 * 4096, 10 + 0 * 4096,
    11 + 1 * 4096, 13 + 1 * 4096, 15 + 1 * 4096, 17 + 1 * 4096, 19 + 2 * 4096, 23 + 2 * 4096, 27 + 2 * 4096, 31 + 2 * 4096,
    35 + 3 * 4096, 43 + 3 * 4096, 51 + 3 * 4096, 59 + 3 * 4096, 67 + 4 * 4096, 83 + 4 * 4096, 99 + 4 * 4096, 115 + 4 * 4096,
    131 + 5 * 4096, 163 + 5 * 4096, 195 + 5 * 4096, 227 + 5 * 4096, 258 + 0 * 4096]

  lemma Details(n: nat)
    requires 257 <= n <= 285
    ensures var detail := SYM_DETAIL[n - 257]; detail / 4096 == LengthExtra(n) && detail % 512 == LengthBase(n)
  {
    Packed(n);
    var x, e := LengthBase(n), LengthExtra(n);
    assert x < 512;
    hide LengthBase, LengthExtra;
    assert (x + e * 4096) / 4096 == e && (x + e * 4096) % 512 == x;
  }

  lemma Packed(n: nat)
    requires 257 <= n <= 285
    ensures SYM_DETAIL[n - 257] == LengthBase(n) + LengthExtra(n) * 4096
  {
  }

  lemma LengthRange(n: nat)
    requires 257 <= n <= 285
    ensures LengthBase(n) + Pow2(LengthExtra(n)) - 1 <= 258
  {
    Powers();
    hide Pow2;
  }

  lemma FarBase(k: nat)
    requires 30 <= k <= 31
    ensures (2 + k % 2) * Pow2(k / 2) / 2 + 1 > 32768
  {
    Powers();
  }

  /** The distance formula agrees with the table of section 3.2.5. */
  lemma BaseTable(k: nat)
    requires k < 30
    ensures (2 + k % 2) * Pow2(k / 2) / 2 + (if k != 0 then 1 else 0) == DistanceBase(k)
    ensures (if k >= 2 then k / 2 - 1 else k / 2) == DistanceExtra(k) <= 13
    ensures DistanceBase(k) + Pow2(DistanceExtra(k)) - 1 <= 32768
  {
    Powers();
    hide Pow2;
    var h := k / 2;
    assert k == 2 * h + k % 2;
  }

  /** dist_base and dist_bits: the distance codes in closed form, which agrees with the table of section 3.2.5. */
  method DistanceParts(distKey: nat) returns (distBase: nat, distBits: nat)
    requires distKey < 32
    ensures distKey < 30 ==> distBase == DistanceBase(distKey) && distBits == DistanceExtra(distKey) <= 13
    ensures distKey < 30 ==> distBase + Pow2(distBits) - 1 <= 32768
    ensures distKey >= 30 ==> distBase > 32768
  {
    distBase := (2 + distKey % 2) * Pow2(distKey / 2) / 2 + (if distKey != 0 then 1 else 0);
    distBits := if distKey >= 2 then distKey / 2 - 1 else distKey / 2;
    hide *;
    if distKey < 30 {
      BaseTable(distKey);
    } else {
      FarBase(distKey);
    }
  }

  /** What a symbol read without underflow is. */
  lemma SymbolCases(c: Code, tbl: seq<nat>, d: Option<nat>, r: nat)
    requires Holds(tbl, c)
    requires d.Some? ==> d.value < |c.lens| && 0 < c.lens[d.value] && r == SymbolField(Leaf(c.lens[d.value], d.value))
    requires d.None? ==> r == c.bad && Kraft(c.lens) < FULL
    ensures d.Some? ==> d.value <= 287 && (if d.value == 256 then r == 384 else r == d.value)
    ensures d.None? ==> r == c.bad
  {
    hide Tree, Kraft, Usable;
    if d.Some? {
      LeafFields(c.lens[d.value], d.value);
    }
  }

  lemma SmallSymbol(len: nat, n: nat)
    requires 1 <= len <= 15 && n <= 255
    ensures SymbolField(Leaf(len, n)) == n
  {
  }

  lemma AlphabetStart(t: bits, pos: nat)
    requires pos <= |t|
    ensures Alphabet(t, pos, 0) == seq(19, i => 0)
  {
  }

  lemma StreamByte(b: byte)
    ensures NatOf(Stream([b])) == b
  {
    assert Pow2(8) == 256;
    assert [b][1..] == [];
    NatOfBitsOf(b, 8);
    assert Stream([b]) == BitsOf(b, 8);
  }

  lemma EmptyWindow(t: bits, pos: nat, buf: bits)
    requires Window(t, pos, buf, 0) && pos + 8 <= |t|
    ensures Window(t, pos + 8, buf, 0)
  {
  }

  /** The check of LEN against NLEN by one exclusive or. */
  lemma Complement(lo: bits, hi: bits)
    requires |lo| == 16 == |hi|
    ensures var len := NatOf(lo + Xor(hi, Not(lo)));
      if NatOf(hi) == 0xFFFF - NatOf(lo) then len == NatOf(lo) < 0x10000 else len >= 0x10000
  {
    hide Pow2, NatOf;
    Pow2Sixteen();
    var x := Xor(hi, Not(lo));
    NatOfConcat(lo, x);
    NatOfBound(lo);
    NotValue(lo);
    SameValue(hi, Not(lo));
    SameValue(x, Zeros(16));
    ZeroValue(16);
    XorEqual(hi, Not(lo));
  }

  lemma SameValue(a: bits, b: bits)
    requires |a| == |b|
    ensures NatOf(a) == NatOf(b) <==> a == b
  {
    BitsOfNatOf(a);
    BitsOfNatOf(b);
  }

  lemma XorEqual(a: bits, b: bits)
    requires |a| == |b|
    ensures Xor(a, b) == Zeros(|a|) <==> a == b
  {
    if Xor(a, b) == Zeros(|a|) {
      forall i | 0 <= i < |a|
        ensures a[i] == b[i]
      {
        assert !Xor(a, b)[i];
      }
    }
  }

  lemma {:induction false} NotValue(a: bits)
    ensures NatOf(a) + NatOf(Not(a)) == Pow2(|a|) - 1
  {
    if |a| > 0 {
      assert Not(a)[1..] == Not(a[1..]);
      NotValue(a[1..]);
    }
  }

  lemma {:induction false} ZeroValue(n: nat)
    ensures NatOf(Zeros(n)) == 0
  {
    if n > 0 {
      assert Zeros(n)[1..] == Zeros(n - 1);
      ZeroValue(n - 1);
    }
  }

  /** How many of the bytes from lo to hi begin at or after a bit position. */
  function Untouched(lo: int, hi: int, pos: int): nat
    decreases hi - lo
  {
    if lo >= hi then 0 else Untouched(lo, hi - 1, pos) + if pos <= 8 * (hi - 1) then 1 else 0
  }

  lemma {:induction false} BytesFrom(lo: int, hi: int, pos: int)
    requires 0 <= lo <= hi
    ensures var end := (pos + 7) / 8;
      Untouched(lo, hi, pos) == if hi <= end then 0 else if lo <= end then hi - end else hi - lo
    decreases hi - lo
  {
    if lo < hi {
      BytesFrom(lo, hi - 1, pos);
    }
  }

  lemma Rounding(pos: int, nbits: nat, left: nat, size: nat)
    requires pos == 8 * (size - left) - nbits
    ensures left + nbits / 8 == size - (pos + 7) / 8
  {
    var q := nbits / 8;
    assert pos + 7 == 8 * (size - left - q) + (7 - nbits % 8);
  }

  lemma ToByte(pos: nat, nbits: nat)
    requires (pos + nbits) % 8 == 0
    ensures pos + nbits % 8 == Align(pos)
  {
    var q := (pos + nbits) / 8;
    assert pos == 8 * q - nbits;
    assert nbits == 8 * (nbits / 8) + nbits % 8;
    assert pos + nbits % 8 == 8 * (q - nbits / 8);
  }
}
