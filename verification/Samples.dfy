/** Streams in full: the bytes of streams of the kinds of blocks that there are, and the bytes that they decompress to. */
module Samples {
  import opened Bits
  import opened Canonical
  import opened DeflateSpec
  import opened DeflateEncode
  import opened InflateRuns
  import FixedCodes
  import Rfc1951
  import TableSize

  // ----- bits as numbers -----

  /** The number whose digits to the base 256 are the bytes, the first one the least significant. */
  function Number(data: seq<byte>): nat {
    if |data| == 0 then 0 else data[0] + 256 * Number(data[1..])
  }

  /** A number after another one, whose m bits are below it. */
  lemma {:induction false} Join(a: nat, m: nat, b: nat, n: nat, c: nat)
    requires a < Pow2(m) && c == a + Pow2(m) * b
    ensures BitsOf(a, m) + BitsOf(b, n) == BitsOf(c, m + n)
  {
    if m == 0 {
      assert BitsOf(a, 0) + BitsOf(b, n) == BitsOf(b, n);
    } else {
      var p := Pow2(m - 1);
      Double(b, p);
      Join(a / 2, m - 1, b, n, a / 2 + p * b);
      HalfOf(a, p * b, c);
      JoinNext(a % 2 == 1, BitsOf(a / 2, m - 1), BitsOf(b, n));
    }
  }

  lemma HalfOf(a: nat, x: nat, c: nat)
    requires c == a + 2 * x
    ensures c % 2 == a % 2 && c / 2 == a / 2 + x
  {
  }

  lemma JoinNext(d: bool, s: bits, t: bits)
    ensures [d] + s + t == [d] + (s + t)
  {
  }

  lemma {:induction false} StreamNumber(data: seq<byte>)
    ensures Stream(data) == BitsOf(Number(data), 8 * |data|)
  {
    if |data| > 0 {
      StreamNumber(data[1..]);
      Powers();
      hide BitsOf, Pow2;
      Join(data[0], 8, Number(data[1..]), 8 * (|data| - 1), Number(data));
    }
  }

  /** The number with the digits of v turned around. */
  function Turned(v: nat, w: nat): nat {
    if w == 0 then 0
    else if v % 2 == 1 then Turned(v / 2, w - 1) + Pow2(w - 1)
    else Turned(v / 2, w - 1)
  }

  lemma {:induction false} TurnedBits(v: nat, w: nat)
    ensures MsbOf(v, w) == BitsOf(Turned(v, w), w) && Turned(v, w) < Pow2(w)
  {
    if w > 0 {
      TurnedBits(v / 2, w - 1);
      assert BitsOf(v % 2, 1) == [v % 2 == 1];
      hide BitsOf, MsbOf;
      MsbNext(v, w);
      Join(Turned(v / 2, w - 1), w - 1, v % 2, 1, Turned(v, w));
      TurnedNext(v, w);
    }
  }

  lemma TurnedNext(v: nat, w: nat)
    requires w > 0 && Turned(v / 2, w - 1) < Pow2(w - 1)
    ensures Turned(v, w) < Pow2(w)
  {
  }

  lemma MsbNext(v: nat, w: nat)
    requires w > 0
    ensures MsbOf(v, w) == MsbOf(v / 2, w - 1) + [v % 2 == 1]
  {
  }

  /** Where the bits of a list of blocks end in the last byte of an input, it decompresses to what the blocks stand for. */
  lemma Whole(bs: seq<Coded>, input: seq<byte>, w: nat)
    requires AllWritable(bs) && AllReach(bs, []) && StreamBits(bs, 0) == BitsOf(Number(input), w)
    requires w <= 8 * |input| < w + 8
    ensures Inflated(input) == Done(StreamOut(bs, []), w) && Unused(input, w) == 0
  {
    hide *;
    var s := StreamBits(bs, 0);
    StreamNumber(input);
    Shorter(Number(input), w, 8 * |input| - w);
    InverseOfEncoding(bs, input);
  }

  lemma {:induction false} Shorter(n: nat, w: nat, k: nat)
    ensures StartsWith(BitsOf(n, w + k), 0, BitsOf(n, w))
    decreases w
  {
    if w > 0 {
      Shorter(n / 2, w - 1, k);
      hide BitsOf;
      BitsFirst(n, w);
      BitsFirst(n, w + k);
    }
  }

  lemma BitsFirst(n: nat, w: nat)
    requires w > 0
    ensures BitsOf(n, w) == [n % 2 == 1] + BitsOf(n / 2, w - 1)
  {
  }


  lemma FourBytes(a: byte, b: byte, c: byte, d: byte, s: seq<byte>)
    ensures Number([a, b, c, d] + s) == a + 256 * (b + 256 * (c + 256 * (d + 256 * Number(s))))
  {
    FirstByte(a, [b, c, d] + s);
    FirstByte(b, [c, d] + s);
    FirstByte(c, [d] + s);
    FirstByte(d, s);
    hide Number;
    FromFour(a, b, c, d, s);
  }

  lemma FromFour(a: byte, b: byte, c: byte, d: byte, s: seq<byte>)
    ensures [a, b, c, d] + s == [a] + ([b, c, d] + s)
    ensures [b, c, d] + s == [b] + ([c, d] + s)
    ensures [c, d] + s == [c] + ([d] + s)
  {
  }

  lemma FirstByte(a: byte, s: seq<byte>)
    ensures Number([a] + s) == a + 256 * Number(s)
  {
    assert ([a] + s)[1..] == s;
  }

  // ----- two stored blocks -----

  lemma {:induction false} ZeroBits(n: nat)
    ensures Zeros(n) == BitsOf(0, n)
  {
    if n > 0 {
      ZeroBits(n - 1);
    }
  }

  lemma OneByteBlock(x: byte, final: bool, pos: nat)
    requires pos % 8 == 0
    ensures var b := StoredBlock(Zeros(7), [x]);
      Writable(b) && BlockBits(b, final, pos) == BitsOf((if final then 1 else 0) + 256 * (1 + 65536 * (65534 + 65536 * x)), 48)
  {
    hide *;
    BlockPieces(x, final, pos);
    var n := 65534 + 65536 * x;
    StoredJoin(if final then 1 else 0, x, n, 1 + 65536 * n);
  }

  lemma BlockPieces(x: byte, final: bool, pos: nat)
    requires pos % 8 == 0
    ensures var b := StoredBlock(Zeros(7), [x]);
      && Writable(b)
      && BlockBits(b, final, pos) == BitsOf(if final then 1 else 0, 3) + (BitsOf(0, 5) + (BitsOf(1, 16) + (BitsOf(65534, 16) + BitsOf(x, 8))))
  {
    var b := StoredBlock(Zeros(7), [x]);
    assert Writable(b) && Kind(b) == 0;
    StoredPieces(x, pos);
    hide *;
    StoredParts(b, final, pos);
  }

  lemma StoredParts(b: Coded, final: bool, pos: nat)
    requires b.StoredBlock? && Writable(b)
    ensures BlockBits(b, final, pos) == BitsOf(if final then 1 else 0, 3) + StoredBits(b, pos)
  {
    hide BitsOf, StoredBits;
  }

  lemma StoredPieces(x: byte, pos: nat)
    requires pos % 8 == 0
    ensures var b := StoredBlock(Zeros(7), [x]);
      Writable(b) && StoredBits(b, pos) == BitsOf(0, 5) + (BitsOf(1, 16) + (BitsOf(65534, 16) + BitsOf(x, 8)))
  {
    var b := StoredBlock(Zeros(7), [x]);
    assert Writable(b);
    OneByte(x);
    Padding();
    AlignEight(pos);
    hide *;
    StoredIs(b, pos);
  }

  lemma StoredIs(b: Coded, pos: nat)
    requires b.StoredBlock? && Writable(b) && Align(pos + 3) == pos + 8
    ensures |b.data| < 0x10000 && |b.pad| == 7
    ensures StoredBits(b, pos) == b.pad[..5] + (BitsOf(|b.data|, 16) + (BitsOf(0xFFFF - |b.data|, 16) + Stream(b.data)))
  {
    hide BitsOf, Stream;
  }

  lemma AlignEight(pos: nat)
    requires pos % 8 == 0
    ensures Align(pos + 3) == pos + 8
  {
  }

  lemma Padding()
    ensures Zeros(7)[..5] == BitsOf(0, 5)
  {
    ZeroBits(5);
    hide BitsOf;
    assert Zeros(7)[..5] == Zeros(5);
  }

  lemma OneByte(x: byte)
    ensures Stream([x]) == BitsOf(x, 8)
  {
    StreamNumber([x]);
    assert Number([x]) == x;
    hide BitsOf, Stream;
  }

  lemma StoredJoin(f: nat, x: byte, n: nat, m: nat)
    requires f < 2 && n == 65534 + 65536 * x && m == 1 + 65536 * n
    ensures BitsOf(f, 3) + (BitsOf(0, 5) + (BitsOf(1, 16) + (BitsOf(65534, 16) + BitsOf(x, 8)))) == BitsOf(f + 256 * m, 48)
  {
    Powers();
    Pow2Sixteen();
    hide BitsOf, Pow2;
    Join(65534, 16, x, 8, n);
    Join(1, 16, n, 24, m);
    Join(0, 5, m, 40, 32 * m);
    Join(f, 3, 32 * m, 45, f + 256 * m);
  }

  lemma TwoBlocks(b: Coded, c: Coded, n: nat)
    requires Writable(b) && Writable(c) && |BlockBits(b, false, 0)| == n
    ensures AllWritable([b, c]) && StreamBits([b, c], 0) == BlockBits(b, false, 0) + BlockBits(c, true, n)
  {
    hide BlockBits, Writable;
    assert [b, c][1..] == [c];
    assert StreamBits([c], n) == BlockBits(c, true, n);
  }

  lemma StoredStream()
    ensures var bs := [StoredBlock(Zeros(7), [0x42]), StoredBlock(Zeros(7), [0x43])];
      && AllWritable(bs) && AllReach(bs, []) && StreamOut(bs, []) == [0x42, 0x43]
      && StreamBits(bs, 0) == BitsOf(0x43FFFE000101_42FFFE000100, 96)
  {
    var b, c := StoredBlock(Zeros(7), [0x42]), StoredBlock(Zeros(7), [0x43]);
    OneByteBlock(0x42, false, 0);
    OneByteBlock(0x43, true, 48);
    BigPower();
    StoredOut();
    hide *;
    Join(0x42FFFE000100, 48, 0x43FFFE000101, 48, 0x43FFFE000101_42FFFE000100);
    TwoBlocks(b, c, 48);
  }

  lemma BigPower()
    ensures Pow2(48) == 0x1_0000_0000_0000
  {
    Pow2Sixteen();
    hide Pow2;
    Pow2Add(16, 16);
    Pow2Add(32, 16);
  }

  lemma StoredOut()
    ensures var bs := [StoredBlock(Zeros(7), [0x42]), StoredBlock(Zeros(7), [0x43])];
      AllReach(bs, []) && StreamOut(bs, []) == [0x42, 0x43]
  {
    var b, c := StoredBlock(Zeros(7), [0x42]), StoredBlock(Zeros(7), [0x43]);
    assert [b, c][1..] == [c];
    assert StreamOut([c], [0x42]) == [0x42, 0x43];
  }

  lemma StoredNumber()
    ensures Number([0, 1, 0, 0xFE, 0xFF, 0x42, 1, 1, 0, 0xFE, 0xFF, 0x43]) == 0x43FFFE000101_42FFFE000100
  {
    var e: seq<byte> := [];
    var d: seq<byte> := [0, 0xFE, 0xFF, 0x43];
    assert Number(e) == 0;
    hide Number;
    FourBytes(0, 0xFE, 0xFF, 0x43, e);
    assert d + e == d;
    FourBytes(0xFF, 0x42, 1, 1, d);
    FourBytes(0, 1, 0, 0xFE, [0xFF, 0x42, 1, 1] + d);
    assert [0, 1, 0, 0xFE] + ([0xFF, 0x42, 1, 1] + d) == [0, 1, 0, 0xFE, 0xFF, 0x42, 1, 1, 0, 0xFE, 0xFF, 0x43];
  }

  /** Two stored blocks of a byte each. */
  method StoredSample() returns (ret: seq<byte>)
    ensures ret == [0x42, 0x43]
  {
    hide *;
    ret := InflateBytes([0, 1, 0, 0xFE, 0xFF, 0x42, 1, 1, 0, 0xFE, 0xFF, 0x43]);
    StoredStream();
    StoredNumber();
    Whole([StoredBlock(Zeros(7), [0x42]), StoredBlock(Zeros(7), [0x43])], [0, 1, 0, 0xFE, 0xFF, 0x42, 1, 1, 0, 0xFE, 0xFF, 0x43], 96);
  }


  // ----- tokens -----

  /** c has the m bits of a and b above them. */
  predicate Above(a: nat, m: nat, b: nat, c: nat) {
    a < Pow2(m) && c == a + Pow2(m) * b
  }

  function Trio(x: byte, y: byte, k: nat): seq<token>
    requires k < 2
  {
    [Literal(x), Literal(y), Tail(k)]
  }

  /** One token more in front, as numbers. */
  lemma More(t: token, ts: seq<token>, lit: lengths, dist: lengths, a: nat, m: nat, b: nat, n: nat, c: nat)
    requires HasCode(t, lit, dist) && TokenBits(t, lit, dist) == BitsOf(a, m)
    requires HaveCodes(ts, lit, dist) && TokensBits(ts, lit, dist) == BitsOf(b, n)
    requires Above(a, m, b, c)
    ensures HaveCodes([t] + ts, lit, dist) && TokensBits([t] + ts, lit, dist) == BitsOf(c, m + n)
  {
    assert ([t] + ts)[1..] == ts;
    hide BitsOf, HasCode, TokenBits, Pow2, Formed;
    Join(a, m, b, n, c);
  }

  lemma NoMore(lit: lengths, dist: lengths)
    requires |lit| > 256 && lit[256] > 0
    ensures HaveCodes([], lit, dist) && TokensBits([], lit, dist) == Codeword(lit, 256)
  {
  }

  /** The bits of a copy, a and b being the numbers of the two codewords. */
  lemma CopyBits(t: token, lit: lengths, dist: lengths, a: nat, b: nat, k: nat, l: nat, e: nat, c: nat)
    requires t.Copy? && HasCode(t, lit, dist) && Codeword(lit, t.symbol) == BitsOf(a, k) && Codeword(dist, t.key) == BitsOf(b, l)
    requires LengthExtra(t.symbol) == 1 && t.extra == 1 && DistanceExtra(t.key) == 0 && t.far == 0
    requires Above(1, 1, b, e) && Above(a, k, e, c)
    ensures TokenBits(t, lit, dist) == BitsOf(c, k + (1 + l))
  {
    hide *;
    Put(1, 1, b, l, e);
    Put(a, k, e, 1 + l, c);
    NoBits(BitsOf(b, l));
    CopyPieces(t, lit, dist);
  }

  lemma CopyPieces(t: token, lit: lengths, dist: lengths)
    requires t.Copy? && HasCode(t, lit, dist)
    ensures TokenBits(t, lit, dist) == Codeword(lit, t.symbol) + (BitsOf(t.extra, LengthExtra(t.symbol))
      + (Codeword(dist, t.key) + BitsOf(t.far, DistanceExtra(t.key))))
  {
    hide BitsOf, Codeword, LengthExtra, DistanceExtra;
  }

  lemma NoBits(s: bits)
    ensures s + BitsOf(0, 0) == s
  {
  }

  lemma Put(a: nat, m: nat, b: nat, n: nat, c: nat)
    requires Above(a, m, b, c)
    ensures BitsOf(a, m) + BitsOf(b, n) == BitsOf(c, m + n)
  {
    hide BitsOf, Pow2;
    Join(a, m, b, n, c);
  }

  function Tail(k: nat): (t: token)
    requires k < 2
  {
    Powers();
    Copy(266, 1, k, 0)
  }

  // ----- a block with the fixed codes -----

  lemma Turnings()
    ensures Turned(145, 8) == 137 && Turned(10, 7) == 40 && Turned(0, 7) == 0 && Turned(0, 5) == 0
  {
    Powers();
    hide Pow2;
  }

  lemma FixedNumbers()
    ensures Codeword(FixedLiteral(), 97) == BitsOf(137, 8) && Codeword(FixedLiteral(), 256) == BitsOf(0, 7)
    ensures Codeword(FixedLiteral(), 266) == BitsOf(40, 7) && Codeword(FixedDistance(), 0) == BitsOf(0, 5)
  {
    hide *;
    Turnings();
    FixedCodes.FixedTable(97);
    FixedCodes.FixedTable(256);
    FixedCodes.FixedTable(266);
    FixedCodes.FixedDistances(0);
    TurnedBits(145, 8);
    TurnedBits(0, 7);
    TurnedBits(10, 7);
    TurnedBits(0, 5);
  }

  lemma FixedHas()
    ensures FixedLiteral()[97] > 0 && FixedLiteral()[256] > 0 && FixedLiteral()[266] > 0 && FixedDistance()[0] > 0
  {
  }

  lemma LiteralBits(b: byte, lit: lengths, dist: lengths)
    requires b < |lit| && lit[b] > 0
    ensures HasCode(Literal(b), lit, dist) && TokenBits(Literal(b), lit, dist) == Codeword(lit, b)
  {
  }

  lemma TailParts(k: nat)
    requires k < 2
    ensures Tail(k) == Copy(266, 1, k, 0) && LengthExtra(266) == 1 && LengthBase(266) == 13
    ensures DistanceExtra(k) == 0 && DistanceBase(k) == k + 1
  {
  }

  lemma TailCode(k: nat, lit: lengths, dist: lengths)
    requires k < 2 && |lit| > 266 && lit[266] > 0 && k < |dist| && dist[k] > 0
    ensures HasCode(Tail(k), lit, dist)
  {
  }

  lemma SmallPowers()
    ensures Pow2(1) == 2 && Pow2(2) == 4 && Pow2(5) == 32 && Pow2(7) == 128 && Pow2(8) == 256 && Pow2(13) == 8192
  {
  }

  lemma Three(a: token, b: token, c: token)
    ensures [a] + ([b] + ([c] + [])) == [a, b, c]
  {
  }

  /** Three tokens and the end of the block, as numbers: n4 is the end, n3 the third token and what follows it, and so on. */
  lemma ThreeTokens(s: token, t: token, r: token, lit: lengths, dist: lengths, a: nat, b: nat, w: nat,
                    c: nat, u: nat, n4: nat, v: nat, n3: nat, n2: nat, n1: nat)
    requires HasCode(s, lit, dist) && HasCode(t, lit, dist) && HasCode(r, lit, dist)
    requires TokenBits(s, lit, dist) == BitsOf(a, w) && TokenBits(t, lit, dist) == BitsOf(b, w)
    requires TokenBits(r, lit, dist) == BitsOf(c, u)
    requires |lit| > 256 && lit[256] > 0 && Codeword(lit, 256) == BitsOf(n4, v)
    requires Above(c, u, n4, n3) && Above(b, w, n3, n2) && Above(a, w, n2, n1)
    ensures HaveCodes([s, t, r], lit, dist) && TokensBits([s, t, r], lit, dist) == BitsOf(n1, w + (w + (u + v)))
  {
    hide *;
    NoMore(lit, dist);
    More(r, [], lit, dist, c, u, n4, v, n3);
    More(t, [r] + [], lit, dist, b, w, n3, u + v, n2);
    More(s, [t] + ([r] + []), lit, dist, a, w, n2, w + (u + v), n1);
    Three(s, t, r);
  }

  lemma FixedTail()
    ensures HasCode(Tail(0), FixedLiteral(), FixedDistance()) && TokenBits(Tail(0), FixedLiteral(), FixedDistance()) == BitsOf(168, 13)
  {
    hide *;
    FixedHas();
    FixedNumbers();
    SmallPowers();
    TailParts(0);
    TailCode(0, FixedLiteral(), FixedDistance());
    TailAbove();
    CopyBits(Tail(0), FixedLiteral(), FixedDistance(), 40, 0, 7, 5, 1, 168);
  }

  lemma AboveIs(a: nat, m: nat, p: nat, b: nat, c: nat)
    requires p == Pow2(m) && a < p && c == a + p * b
    ensures Above(a, m, b, c)
  {
  }

  lemma TailAbove()
    ensures Above(1, 1, 0, 1) && Above(40, 7, 1, 168)
  {
    SmallPowers();
    hide *;
    AboveIs(1, 1, 2, 0, 1);
    AboveIs(40, 7, 128, 1, 168);
  }

  lemma FixedAbove()
    ensures Above(168, 13, 0, 168) && Above(137, 8, 168, 43145) && Above(137, 8, 43145, 11045257)
  {
    SmallPowers();
    hide *;
    AboveIs(168, 13, 8192, 0, 168);
    AboveIs(137, 8, 256, 168, 43145);
    AboveIs(137, 8, 256, 43145, 11045257);
  }

  lemma FixedTokens()
    ensures HaveCodes(Trio(97, 97, 0), FixedLiteral(), FixedDistance())
    ensures TokensBits(Trio(97, 97, 0), FixedLiteral(), FixedDistance()) == BitsOf(11045257, 36)
  {
    var s: token, t := Literal(97), Tail(0);
    assert Trio(97, 97, 0) == [s, s, t];
    hide *;
    FixedHas();
    FixedNumbers();
    SmallPowers();
    LiteralBits(97, FixedLiteral(), FixedDistance());
    FixedTail();
    FixedAbove();
    ThreeTokens(s, s, t, FixedLiteral(), FixedDistance(), 137, 137, 8, 168, 13, 0, 7, 168, 43145, 11045257);
  }


  /** Two letters and a copy of 14 bytes from k + 1 places back. */
  lemma ThreeOut(x: byte, y: byte, k: nat, r: seq<byte>)
    requires k < 2 && |r| == 16 && r[0] == x && r[1] == y
    requires forall i :: 2 <= i < 16 ==> r[i] == r[i - k - 1]
    ensures Reaching(Trio(x, y, k), 0) && Expand(Trio(x, y, k), []) == r
  {
    var s: token, t: token, u: token := Literal(x), Literal(y), Tail(k);
    TailParts(k);
    hide LengthBase, DistanceBase, Extend;
    Rfc1951.CopyExactly([x, y], k + 1, 14, r);
    assert [x, y] <= r;
    Steps(s, t, u);
  }

  lemma Steps(s: token, t: token, u: token)
    requires s.Literal? && t.Literal? && u.Copy? && CopyDistance(u) <= 2
    ensures var ts := [s, t, u]; Reaching(ts, 0) && Expand(ts, []) == Extend([s.b, t.b], CopyDistance(u), CopyLength(u))
  {
    hide CopyDistance, CopyLength, Extend;
    var e: seq<token> := [];
    assert Reaching(e, 2 + CopyLength(u));
    LastStep(u, [s.b, t.b]);
    assert [s, t, u][1..] == [t, u] && [t, u][1..] == [u];
    assert [] + [s.b] == [s.b] && [s.b] + [t.b] == [s.b, t.b];
    assert Reaching([t, u], 1);
    assert Expand([t, u], [s.b]) == Expand([u], [s.b, t.b]);
  }

  lemma LastStep(u: token, o: seq<byte>)
    requires u.Copy? && CopyDistance(u) <= |o|
    ensures Reaching([u], |o|) && Expand([u], o) == Extend(o, CopyDistance(u), CopyLength(u))
  {
    hide CopyDistance, CopyLength, Extend;
    assert [u][1..] == [];
  }

  lemma FixedStream()
    ensures var bs := [FixedBlock(Trio(97, 97, 0))];
      && AllWritable(bs) && AllReach(bs, []) && StreamBits(bs, 0) == BitsOf(0x5444C4B, 39)
      && StreamOut(bs, []) == [97, 97, 97, 97, 97, 97, 97, 97, 97, 97, 97, 97, 97, 97, 97, 97]
  {
    var ts := Trio(97, 97, 0);
    ThreeOut(97, 97, 0, [97, 97, 97, 97, 97, 97, 97, 97, 97, 97, 97, 97, 97, 97, 97, 97]);
    FixedTokens();
    Powers();
    FixedParts(ts);
    hide *;
    Join(3, 3, 11045257, 36, 0x5444C4B);
    OnlyBlock(FixedBlock(ts));
  }

  lemma FixedParts(ts: seq<token>)
    requires HaveCodes(ts, FixedLiteral(), FixedDistance()) && Reaching(ts, 0)
    ensures Writable(FixedBlock(ts)) && Reaches(FixedBlock(ts), 0) && BlockOut(FixedBlock(ts), []) == Expand(ts, [])
    ensures BlockBits(FixedBlock(ts), true, 0) == BitsOf(3, 3) + TokensBits(ts, FixedLiteral(), FixedDistance())
  {
    hide TokensBits, HaveCodes, Expand, Reaching, BitsOf;
  }

  lemma OnlyBlock(b: Coded)
    requires Writable(b) && Reaches(b, 0)
    ensures AllWritable([b]) && AllReach([b], []) && StreamBits([b], 0) == BlockBits(b, true, 0)
    ensures StreamOut([b], []) == BlockOut(b, [])
  {
    hide Writable, Reaches, BlockBits, BlockOut;
    assert [b][1..] == [];
  }

  lemma FixedNumber()
    ensures Number([0x4B, 0x4C, 0x44, 0x05, 0x00]) == 0x5444C4B
  {
    var e: seq<byte> := [];
    assert Number(e) == 0;
    hide Number;
    FirstByte(0, e);
    FourBytes(0x4B, 0x4C, 0x44, 0x05, [0] + e);
    assert [0x4B, 0x4C, 0x44, 0x05] + ([0] + e) == [0x4B, 0x4C, 0x44, 0x05, 0x00];
  }

  /** Two literals and a copy of 14 bytes, with the fixed codes: sixteen times the same letter. */
  method FixedSample() returns (ret: seq<byte>)
    ensures ret == [97, 97, 97, 97, 97, 97, 97, 97, 97, 97, 97, 97, 97, 97, 97, 97]
  {
    hide *;
    ret := InflateBytes([0x4B, 0x4C, 0x44, 0x05, 0x00]);
    FixedStream();
    FixedNumber();
    Whole([FixedBlock(Trio(97, 97, 0))], [0x4B, 0x4C, 0x44, 0x05, 0x00], 39);
  }


  // ----- a block with codes of its own -----

  /** Symbol a, b, c and d have codewords of two bits, the others none. */
  predicate Four(lens: lengths, a: nat, b: nat, c: nat, d: nat) {
    && a < b < c < d < |lens|
    && forall i :: 0 <= i < |lens| ==> lens[i] == if i == a || i == b || i == c || i == d then 2 else 0
  }

  lemma CountAt(lens: lengths, a: nat)
    requires a < |lens| && lens[a] == 2
    ensures Count(lens[..a + 1], 2) == Count(lens[..a], 2) + 1
  {
    assert lens[..a + 1][..a] == lens[..a];
  }

  lemma FourCounts(lens: lengths, a: nat, b: nat, c: nat, d: nat)
    requires Four(lens, a, b, c, d)
    ensures Count(lens[..a], 2) == 0 && Count(lens[..b], 2) == 1 && Count(lens[..c], 2) == 2 && Count(lens[..d], 2) == 3
    ensures forall l :: 1 <= l <= 15 ==> Count(lens, l) == if l == 2 then 4 else 0
  {
    assert lens[..0] == [] && lens[..|lens|] == lens;
    forall l | 1 <= l <= 15 && l != 2
      ensures Count(lens, l) == 0
    {
      Rfc1951.CountNone(lens, 0, |lens|, l);
    }
    assert Count([], 2) == 0;
    hide Count;
    Rfc1951.CountNone(lens, 0, a, 2);
    CountAt(lens, a);
    Rfc1951.CountNone(lens, a + 1, b, 2);
    CountAt(lens, b);
    Rfc1951.CountNone(lens, b + 1, c, 2);
    CountAt(lens, c);
    Rfc1951.CountNone(lens, c + 1, d, 2);
    CountAt(lens, d);
    Rfc1951.CountNone(lens, d + 1, |lens|, 2);
  }

  lemma FourKraft(lens: lengths, a: nat, b: nat, c: nat, d: nat)
    requires Four(lens, a, b, c, d)
    ensures Kraft(lens) == FULL && Usable(lens)
  {
    FourCounts(lens, a, b, c, d);
    TableSize.StartLow(lens);
    TableSize.StartHigh(lens);
    hide Count, Start, Four;
  }

  lemma FourCodes(lens: lengths, a: nat, b: nat, c: nat, d: nat)
    requires Four(lens, a, b, c, d)
    ensures Codeword(lens, a) == BitsOf(0, 2) && Codeword(lens, b) == BitsOf(2, 2)
    ensures Codeword(lens, c) == BitsOf(1, 2) && Codeword(lens, d) == BitsOf(3, 2)
  {
    FourCounts(lens, a, b, c, d);
    assert NextCode(lens, 1) == 0;
    NextCodeStep(lens, 2);
    TwoTurned();
    hide Count, NextCode, MsbOf, BitsOf;
  }

  lemma TwoTurned()
    ensures MsbOf(0, 2) == BitsOf(0, 2) && MsbOf(1, 2) == BitsOf(2, 2)
    ensures MsbOf(2, 2) == BitsOf(1, 2) && MsbOf(3, 2) == BitsOf(3, 2)
  {
    TurnedBits(0, 2);
    TurnedBits(1, 2);
    TurnedBits(2, 2);
    TurnedBits(3, 2);
  }

  /** The code length code. */
  function OwnAlphabet(): (l: lengths)
    ensures |l| == 19
  {
    seq(19, i => if i == 2 || i >= 16 then 2 else 0)
  }

  /** The lengths of both codes, that of the distances from 267 on. */
  function OwnLengths(): (l: lengths)
    ensures |l| == 271
  {
    seq(271, i => if i == 97 || i == 98 || i == 256 || i >= 266 then 2 else 0)
  }

  lemma OwnFour()
    ensures Four(OwnAlphabet(), 2, 16, 17, 18) && Four(OwnLengths()[..267], 97, 98, 256, 266)
    ensures Four(OwnLengths()[267..], 0, 1, 2, 3)
  {
  }

  lemma OwnGiven(g: Given)
    requires g == Length(2) || g == LongZeros(86) || g == LongZeros(127) || g == LongZeros(8) || g == ShortZeros(6) || g == Again(1)
    ensures forall known: nat :: known > 0 || !g.Again? ==>
      GivenOk(g, OwnAlphabet(), known) && GivenBits(g, OwnAlphabet(), known) ==
        match g
        case Length(_) => BitsOf(0, 2)
        case Again(x) => BitsOf(2 + 4 * x, 4)
        case ShortZeros(x) => BitsOf(1 + 4 * x, 5)
        case LongZeros(x) => BitsOf(3 + 4 * x, 9)
  {
    var cl := OwnAlphabet();
    OwnFour();
    FourCodes(cl, 2, 16, 17, 18);
    SmallPowers();
    hide BitsOf, Pow2, Codeword;
    match g
    case Length(_) =>
    case Again(x) => Join(2, 2, x, 2, 2 + 4 * x);
    case ShortZeros(x) => Join(1, 2, x, 3, 1 + 4 * x);
    case LongZeros(x) => Join(3, 2, x, 7, 3 + 4 * x);
  }

  /** With the lengths up to n known g gives those up to k. */
  predicate Follows(g: Given, n: nat, k: nat) {
    && n < k <= 271 && GivenOk(g, OwnAlphabet(), n)
    && GivenLengths(g, OwnAlphabet(), OwnLengths()[..n]) == OwnLengths()[..k]
  }

  lemma OwnFollows()

    ensures Follows(LongZeros(86), 0, 97)
    ensures Follows(Length(2), 97, 98)
    ensures Follows(Length(2), 98, 99)
    ensures Follows(LongZeros(127), 99, 237)
    ensures Follows(LongZeros(8), 237, 256)
    ensures Follows(Length(2), 256, 257)
    ensures Follows(ShortZeros(6), 257, 266)
    ensures Follows(Length(2), 266, 267)
    ensures Follows(Again(1), 267, 271)
  {
  }

  /** And its m bits are those of a. */
  predicate Leads(g: Given, n: nat, k: nat, a: nat, m: nat) {
    Follows(g, n, k) && GivenBits(g, OwnAlphabet(), n) == BitsOf(a, m)
  }

  lemma OwnLeads()

    ensures Leads(LongZeros(86), 0, 97, 347, 9)
    ensures Leads(Length(2), 97, 98, 0, 2)
    ensures Leads(Length(2), 98, 99, 0, 2)
    ensures Leads(LongZeros(127), 99, 237, 511, 9)
    ensures Leads(LongZeros(8), 237, 256, 35, 9)
    ensures Leads(Length(2), 256, 257, 0, 2)
    ensures Leads(ShortZeros(6), 257, 266, 25, 5)
    ensures Leads(Length(2), 266, 267, 0, 2)
    ensures Leads(Again(1), 267, 271, 6, 4)
  {
    OwnGiven(Again(1));
    OwnGiven(Length(2));
    OwnGiven(LongZeros(8));
    OwnGiven(LongZeros(86));
    OwnGiven(LongZeros(127));
    OwnGiven(ShortZeros(6));
    OwnFollows();
    hide BitsOf, GivenBits, GivenOk, GivenLengths, Codeword, OwnAlphabet, OwnLengths;
  }

  /** The lengths from n on are given by gs, whose bits are those of b. */
  predicate GivenFrom(gs: seq<Given>, n: nat, b: nat, w: nat) {
    && n <= 271 && AllGivenOk(gs, OwnAlphabet(), OwnLengths()[..n])
    && AllLengths(gs, OwnAlphabet(), OwnLengths()[..n]) == OwnLengths()
    && AllGivenBits(gs, OwnAlphabet(), OwnLengths()[..n]) == BitsOf(b, w)
  }

  lemma MoreGiven(g: Given, gs: seq<Given>, n: nat, k: nat, a: nat, m: nat, b: nat, w: nat, c: nat)
    requires GivenFrom(gs, k, b, w) && Leads(g, n, k, a, m) && Above(a, m, b, c)
    ensures GivenFrom([g] + gs, n, c, m + w)
  {
    assert ([g] + gs)[1..] == gs;
    hide BitsOf, GivenBits, GivenOk, GivenLengths, OwnAlphabet, OwnLengths, Above;
    Put(a, m, b, w, c);
  }


  lemma NoneGiven()
    ensures GivenFrom([], 271, 0, 0)
  {
    assert OwnLengths()[..271] == OwnLengths();
  }

  lemma GivenAbove()
    ensures Above(6, 4, 0, 6)
    ensures Above(0, 2, 6, 24)
    ensures Above(25, 5, 24, 793)
    ensures Above(0, 2, 793, 3172)
    ensures Above(35, 9, 3172, 1624099)
    ensures Above(511, 9, 1624099, 831539199)
    ensures Above(0, 2, 831539199, 3326156796)
    ensures Above(0, 2, 3326156796, 13304627184)
    ensures Above(347, 9, 13304627184, 6811969118555)
  {
    Powers();
    hide Pow2;
  }

  /** How the lengths are given: with all three kinds of repetition, the last one going on into the second code. */
  function OwnGivens(): seq<Given> {
    [LongZeros(86), Length(2), Length(2), LongZeros(127), LongZeros(8), Length(2), ShortZeros(6), Length(2), Again(1)]
  }

  lemma GivensAre()
    ensures OwnGivens() == [LongZeros(86)] + ([Length(2)] + ([Length(2)] + ([LongZeros(127)] + ([LongZeros(8)] + ([Length(2)] + ([ShortZeros(6)] + ([Length(2)] + ([Again(1)] + []))))))))
  {
  }

  lemma ThreeGiven(g: Given, h: Given, i: Given, gs: seq<Given>, n: nat, k: nat, l: nat, r: nat,
                   a: nat, u: nat, b: nat, v: nat, c: nat, w: nat, x: nat, m: nat, n3: nat, n2: nat, n1: nat)
    requires Leads(g, n, k, a, u) && Leads(h, k, l, b, v) && Leads(i, l, r, c, w) && GivenFrom(gs, r, x, m)
    requires Above(c, w, x, n3) && Above(b, v, n3, n2) && Above(a, u, n2, n1)
    ensures GivenFrom([g] + ([h] + ([i] + gs)), n, n1, u + (v + (w + m)))
  {
    hide *;
    MoreGiven(i, gs, l, r, c, w, x, m, n3);
    MoreGiven(h, [i] + gs, k, l, b, v, n3, w + m, n2);
    MoreGiven(g, [h] + ([i] + gs), n, k, a, u, n2, v + (w + m), n1);
  }

  lemma OwnGivensBits()
    ensures GivenFrom(OwnGivens(), 0, 6811969118555, 44)
  {
    GivenAbove();
    OwnLeads();
    GivensAre();
    hide *;
    NoneGiven();
    ThreeGiven(ShortZeros(6), Length(2), Again(1), [], 257, 266, 267, 271, 25, 5, 0, 2, 6, 4, 0, 0, 6, 24, 793);
    ThreeGiven(LongZeros(127), LongZeros(8), Length(2), [ShortZeros(6)] + ([Length(2)] + ([Again(1)] + [])), 99, 237, 256, 257, 511, 9, 35, 9, 0, 2, 793, 11, 3172, 1624099, 831539199);
    ThreeGiven(LongZeros(86), Length(2), Length(2), [LongZeros(127)] + ([LongZeros(8)] + ([Length(2)] + ([ShortZeros(6)] + ([Length(2)] + ([Again(1)] + []))))), 0, 97, 98, 99, 347, 9, 0, 2, 0, 2, 831539199, 31, 3326156796, 13304627184, 6811969118555);
  }

  lemma {:induction false} OwnZeros(n: nat)
    requires 3 <= n <= 15
    ensures AlphabetBits(OwnAlphabet(), n) == BitsOf(146, 3 * n) && 146 < Pow2(3 * n)
  {
    if n == 3 {
      OwnThree();
    } else {
      hide *;
      OwnZeros(n - 1);
      OwnNext(n);
      Eight(3 * (n - 1));
      Join(146, 3 * (n - 1), 0, 3, 146);
    }
  }

  lemma OwnNext(n: nat)
    requires 4 <= n <= 15
    ensures AlphabetBits(OwnAlphabet(), n) == AlphabetBits(OwnAlphabet(), n - 1) + BitsOf(0, 3)
  {
    Rfc1951.OrderTable(n - 1);
    hide Order, BitsOf;
  }

  lemma Eight(n: nat)
    ensures Pow2(n + 3) == 8 * Pow2(n)
  {
    Powers();
    Pow2Add(3, n);
  }

  lemma OwnThree()
    ensures AlphabetBits(OwnAlphabet(), 3) == BitsOf(146, 9) && 146 < Pow2(9)
  {
    var cl := OwnAlphabet();
    Powers();
    assert AlphabetBits(cl, 0) == BitsOf(0, 0);
    assert cl[Order(0)] == 2 && cl[Order(1)] == 2 && cl[Order(2)] == 2;
    hide BitsOf, OwnAlphabet, Order, Pow2;
    Join(0, 0, 2, 3, 2);
    Join(2, 3, 2, 3, 18);
    Join(18, 6, 2, 3, 146);
  }

  lemma OwnAlphabetBits()
    ensures AlphabetBits(OwnAlphabet(), 16) == BitsOf(70368744177810, 48)
  {
    OwnZeros(15);
    Powers45();
    assert OwnAlphabet()[Order(15)] == 2;
    hide BitsOf, OwnAlphabet, Order, Pow2;
    Join(146, 45, 2, 3, 70368744177810);
  }

  lemma Powers45()
    ensures Pow2(44) == 17592186044416 && Pow2(45) == 35184372088832 && Pow2(48) == 281474976710656 && Pow2(14) == 16384 && Pow2(3) == 8
  {
    BigPower();
    Powers();
    Eight(45);
    assert Pow2(45) == 2 * Pow2(44);
    hide Pow2;
  }

  function OwnBlock(): Coded {
    DynamicBlock(267, 4, 16, OwnAlphabet(), OwnGivens(), Trio(97, 98, 1))
  }

  lemma OwnAlphabetOk()
    ensures var cl := OwnAlphabet();
      Kraft(cl) == FULL && (forall i :: 0 <= i < 19 ==> cl[i] <= 7) && (forall i :: 16 <= i < 19 ==> cl[Order(i)] == 0)
  {
    OwnFour();
    FourKraft(OwnAlphabet(), 2, 16, 17, 18);
    hide Kraft;
  }

  lemma OwnCodes()
    ensures Usable(OwnLengths()[..267]) && Usable(OwnLengths()[267..])
    ensures var lit := OwnLengths()[..267]; lit[97] > 0 && lit[98] > 0 && lit[256] > 0 && lit[266] > 0
    ensures OwnLengths()[267..][1] > 0
    ensures var lit := OwnLengths()[..267];
      && Codeword(lit, 97) == BitsOf(0, 2) && Codeword(lit, 98) == BitsOf(2, 2)
      && Codeword(lit, 256) == BitsOf(1, 2) && Codeword(lit, 266) == BitsOf(3, 2)
    ensures Codeword(OwnLengths()[267..], 1) == BitsOf(2, 2)
  {
    var lit, dist := OwnLengths()[..267], OwnLengths()[267..];
    OwnFour();
    hide Kraft, Usable, Codeword, BitsOf, OwnLengths;
    FourKraft(lit, 97, 98, 256, 266);
    FourKraft(dist, 0, 1, 2, 3);
    FourCodes(lit, 97, 98, 256, 266);
    FourCodes(dist, 0, 1, 2, 3);
  }

  lemma OwnAbove()
    ensures Above(1, 1, 2, 5) && Above(3, 2, 5, 23)
    ensures Above(23, 5, 1, 55) && Above(2, 2, 55, 222) && Above(0, 2, 222, 888)
  {
    SmallPowers();
    hide *;
    AboveIs(1, 1, 2, 2, 5);
    AboveIs(3, 2, 4, 5, 23);
    AboveIs(23, 5, 32, 1, 55);
    AboveIs(2, 2, 4, 55, 222);
    AboveIs(0, 2, 4, 222, 888);
  }

  lemma OwnTokens()
    ensures HaveCodes(Trio(97, 98, 1), OwnLengths()[..267], OwnLengths()[267..])
    ensures TokensBits(Trio(97, 98, 1), OwnLengths()[..267], OwnLengths()[267..]) == BitsOf(888, 11)
  {
    var lit, dist := OwnLengths()[..267], OwnLengths()[267..];
    var s: token, t: token, r := Literal(97), Literal(98), Tail(1);
    assert Trio(97, 98, 1) == [s, t, r];
    hide *;
    OwnCodes();
    SmallPowers();
    OwnAbove();
    LiteralBits(97, lit, dist);
    LiteralBits(98, lit, dist);
    TailParts(1);
    TailCode(1, lit, dist);
    CopyBits(r, lit, dist, 3, 2, 2, 2, 5, 23);
    ThreeTokens(s, t, r, lit, dist, 0, 2, 2, 23, 5, 1, 2, 55, 222, 888);
  }

  lemma OwnGivensOk()
    ensures AllGivenOk(OwnGivens(), OwnAlphabet(), []) && AllLengths(OwnGivens(), OwnAlphabet(), []) == OwnLengths()
    ensures AllGivenBits(OwnGivens(), OwnAlphabet(), []) == BitsOf(6811969118555, 44)
  {
    OwnGivensBits();
    assert OwnLengths()[..0] == [];
    hide OwnGivens, OwnAlphabet, OwnLengths, BitsOf;
  }

  lemma OwnWritable()
    ensures Writable(OwnBlock()) && LiteralLengths(OwnBlock()) == OwnLengths()[..267] && DistanceLengths(OwnBlock()) == OwnLengths()[267..]
  {
    OwnAlphabetOk();
    OwnGivensOk();
    OwnCodes();
    OwnTokens();
    hide Kraft, Usable, Codeword, BitsOf, OwnAlphabet, OwnLengths, OwnGivens, AllGivenOk, AllLengths, HaveCodes, Trio, Order;
  }


  lemma OwnPieces()
    ensures Writable(OwnBlock())
    ensures BlockBits(OwnBlock(), true, 0) == BitsOf(5, 3) + (BitsOf(12394, 14) + (AlphabetBits(OwnAlphabet(), 16)
      + (AllGivenBits(OwnGivens(), OwnAlphabet(), [])
      + TokensBits(Trio(97, 98, 1), OwnLengths()[..267], OwnLengths()[267..]))))
  {
    OwnWritable();
    OwnGivensOk();
    hide Kraft, Usable, Codeword, BitsOf, OwnAlphabet, OwnLengths, OwnGivens, AllGivenOk, AllLengths, HaveCodes, Trio, Order, AlphabetBits, AllGivenBits, TokensBits, DynamicOk;
  }

  lemma OwnNumbers()
    ensures Above(6811969118555, 44, 888, 15628673176559963)
    ensures Above(70368744177810, 48, 15628673176559963, 4399080418390669783316029243538)
    ensures Above(12394, 14, 4399080418390669783316029243538, 72074533574912733729849823126138986)
    ensures Above(5, 3, 72074533574912733729849823126138986, 0x6F0C6411FFC2B68000000001258355)
  {
    hide *;
    Powers45();
    AboveIs(6811969118555, 44, 17592186044416, 888, 15628673176559963);
    AboveIs(70368744177810, 48, 281474976710656, 15628673176559963, 4399080418390669783316029243538);
    AboveIs(12394, 14, 16384, 4399080418390669783316029243538, 72074533574912733729849823126138986);
    AboveIs(5, 3, 8, 72074533574912733729849823126138986, 0x6F0C6411FFC2B68000000001258355);
  }

  lemma OwnBits()
    ensures Writable(OwnBlock()) && BlockBits(OwnBlock(), true, 0) == BitsOf(0x6F0C6411FFC2B68000000001258355, 120)
  {
    hide *;
    OwnPieces();
    OwnNumbers();
    OwnAlphabetBits();
    OwnGivensOk();
    OwnTokens();
    Put(6811969118555, 44, 888, 11, 15628673176559963);
    Put(70368744177810, 48, 15628673176559963, 55, 4399080418390669783316029243538);
    Put(12394, 14, 4399080418390669783316029243538, 103, 72074533574912733729849823126138986);
    Put(5, 3, 72074533574912733729849823126138986, 117, 0x6F0C6411FFC2B68000000001258355);
  }

  lemma OwnNumber()
    ensures Number([0x55, 0x83, 0x25, 0x01, 0x00, 0x00, 0x00, 0x80, 0xB6, 0xC2, 0xFF, 0x11, 0x64, 0x0C, 0x6F]) == 0x6F0C6411FFC2B68000000001258355
  {
    var e: seq<byte> := [];
    var c: seq<byte> := [0x64, 0x0C, 0x6F];
    var d: seq<byte> := [0xB6, 0xC2, 0xFF, 0x11] + c;
    var f: seq<byte> := [0x00, 0x00, 0x00, 0x80] + d;
    assert Number(e) == 0;
    hide Number;
    FirstByte(111, e);
    FirstByte(12, [111] + e);
    FirstByte(100, [12] + ([111] + e));
    assert [100] + ([12] + ([111] + e)) == c;
    FourBytes(0xB6, 0xC2, 0xFF, 0x11, c);
    FourBytes(0x00, 0x00, 0x00, 0x80, d);
    FourBytes(0x55, 0x83, 0x25, 0x01, f);
    assert [0x55, 0x83, 0x25, 0x01] + f == [0x55, 0x83, 0x25, 0x01, 0x00, 0x00, 0x00, 0x80, 0xB6, 0xC2, 0xFF, 0x11, 0x64, 0x0C, 0x6F];
  }

  lemma OwnOut()
    ensures Reaches(OwnBlock(), 0)
    ensures BlockOut(OwnBlock(), []) == [97, 98, 97, 98, 97, 98, 97, 98, 97, 98, 97, 98, 97, 98, 97, 98]
  {
    OwnIs();
    hide *;
    ThreeOut(97, 98, 1, [97, 98, 97, 98, 97, 98, 97, 98, 97, 98, 97, 98, 97, 98, 97, 98]);
  }

  lemma OwnIs()
    ensures Reaching(Trio(97, 98, 1), 0) ==> Reaches(OwnBlock(), 0) && BlockOut(OwnBlock(), []) == Expand(Trio(97, 98, 1), [])
  {
    hide Reaching, Expand, Trio, OwnAlphabet, OwnGivens;
  }

  /** Two literals and a copy of 14 bytes, with codes that the block gives by all kinds of repetition. */
  method DynamicSample() returns (ret: seq<byte>)
    ensures ret == [97, 98, 97, 98, 97, 98, 97, 98, 97, 98, 97, 98, 97, 98, 97, 98]
  {
    hide *;
    ret := InflateBytes([0x55, 0x83, 0x25, 0x01, 0x00, 0x00, 0x00, 0x80, 0xB6, 0xC2, 0xFF, 0x11, 0x64, 0x0C, 0x6F]);
    OwnBits();
    OwnOut();
    OwnNumber();
    OnlyBlock(OwnBlock());
    Whole([OwnBlock()], [0x55, 0x83, 0x25, 0x01, 0x00, 0x00, 0x00, 0x80, 0xB6, 0xC2, 0xFF, 0x11, 0x64, 0x0C, 0x6F], 120);
  }
}
