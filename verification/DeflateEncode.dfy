/** A specification-level encoder for the DEFLATE format, and the proof that decoding inverts it.

    A stream is a list of blocks; each is stored, or a list of tokens under the fixed codes or under any
    pair of codes that the block describes. The encoder leaves every choice that the format leaves open
    (sections 3.2.3 to 3.2.7 of RFC 1951) to the blocks. */
module DeflateEncode {
  import opened Wrappers
  import opened Bits
  import opened Canonical
  import opened DeflateSpec
  import FixedCodes
  import Rfc1951

  /** A literal, or a copy given by its length symbol and distance symbol with their extra bits. */
  datatype Token = Literal(b: byte) | Copy(symbol: nat, extra: nat, key: nat, far: nat)

  predicate Formed(t: Token) {
    t.Copy? ==>
      && 257 <= t.symbol <= 285 && t.extra < Pow2(LengthExtra(t.symbol))
      && t.key < 30 && t.far < Pow2(DistanceExtra(t.key))
  }

  type token = t: Token | Formed(t) witness Literal(0)

  /** How a dynamic block gives the next code lengths. */
  datatype Given = Length(v: nat) | Again(x: nat) | ShortZeros(x: nat) | LongZeros(x: nat)

  datatype Coded =
    | StoredBlock(pad: bits, data: seq<byte>)
    | FixedBlock(tokens: seq<token>)
    | DynamicBlock(hlit: nat, hdist: nat, hclen: nat, cl: lengths, givens: seq<Given>, tokens: seq<token>)

  // ----- tokens -----

  function CopyLength(t: token): nat
    requires t.Copy?
  {
    LengthBase(t.symbol) + t.extra
  }

  function CopyDistance(t: token): (r: nat)
    requires t.Copy?
    ensures r >= 1
  {
    DistanceBase(t.key) + t.far
  }

  /** All copies reach back no further than the output so far. */
  predicate Reaching(ts: seq<token>, size: nat) {
    if |ts| == 0 then true
    else if ts[0].Literal? then Reaching(ts[1..], size + 1)
    else CopyDistance(ts[0]) <= size && Reaching(ts[1..], size + CopyLength(ts[0]))
  }

  /** The output after a token. */
  function Apply(t: token, out: seq<byte>): seq<byte>
    requires t.Copy? ==> CopyDistance(t) <= |out|
  {
    if t.Literal? then out + [t.b] else Extend(out, CopyDistance(t), CopyLength(t))
  }

  /** The output after a token list. */
  function Expand(ts: seq<token>, out: seq<byte>): (r: seq<byte>)
    requires Reaching(ts, |out|)
  {
    if |ts| == 0 then out else Expand(ts[1..], Apply(ts[0], out))
  }

  /** The codes have codewords for the token. */
  predicate HasCode(t: token, lit: lengths, dist: lengths) {
    match t
    case Literal(b) => b < |lit| && lit[b] > 0
    case Copy(n, _, k, _) => n < |lit| && lit[n] > 0 && k < |dist| && dist[k] > 0
  }

  predicate HaveCodes(ts: seq<token>, lit: lengths, dist: lengths) {
    && |lit| > 256 && lit[256] > 0
    && forall i :: 0 <= i < |ts| ==> HasCode(ts[i], lit, dist)
  }

  function TokenBits(t: token, lit: lengths, dist: lengths): bits
    requires HasCode(t, lit, dist)
  {
    match t
    case Literal(b) => Codeword(lit, b)
    case Copy(n, x, k, y) =>
      Codeword(lit, n) + (BitsOf(x, LengthExtra(n)) + (Codeword(dist, k) + BitsOf(y, DistanceExtra(k))))
  }

  /** The tokens and the end-of-block symbol. */
  function TokensBits(ts: seq<token>, lit: lengths, dist: lengths): bits
    requires HaveCodes(ts, lit, dist)
  {
    if |ts| == 0 then Codeword(lit, 256) else TokenBits(ts[0], lit, dist) + TokensBits(ts[1..], lit, dist)
  }

  lemma Split(s: bits, pos: nat, a: bits, b: bits)
    requires StartsWith(s, pos, a + b)
    ensures StartsWith(s, pos, a) && StartsWith(s, pos + |a|, b)
  {
    assert s[pos..pos + |a|] == s[pos..pos + |a + b|][..|a|];
    assert s[pos + |a|..pos + |a| + |b|] == s[pos..pos + |a + b|][|a|..];
    assert (a + b)[..|a|] == a && (a + b)[|a|..] == b;
  }

  lemma FieldAt(s: bits, pos: nat, v: nat, n: nat)
    requires StartsWith(s, pos, BitsOf(v, n)) && v < Pow2(n)
    ensures pos + n <= |s| && Field(s, pos, n) == v
  {
    NatOfBitsOf(v, n);
    DivModUnique(v, Pow2(n), 0, v);
  }

  lemma SymbolAt(lens: lengths, s: bits, pos: nat, n: nat)
    requires Usable(lens) && n < |lens| && lens[n] > 0 && StartsWith(s, pos, Codeword(lens, n))
    ensures Decode(lens, s, pos) == Some(n) && pos + lens[n] <= |s|
  {
    hide Codeword, Kraft, Decode;
    DecodeUnique(lens, s, pos, n);
  }

  /** Where a token is encoded, decoding appends what it stands for. */
  lemma OneToken(s: bits, pos: nat, out: seq<byte>, lit: lengths, dist: lengths, final: bool, t: token)
    requires Usable(lit) && Usable(dist) && HasCode(t, lit, dist)
    requires StartsWith(s, pos, TokenBits(t, lit, dist))
    requires t.Copy? ==> CopyDistance(t) <= |out|
    ensures Tokens(s, pos, out, lit, dist, final)
      == Tokens(s, pos + |TokenBits(t, lit, dist)|, Apply(t, out), lit, dist, final)
  {
    hide Tokens, Distance, Decode, Codeword, Usable, Extend, LengthBase, LengthExtra, DistanceBase, DistanceExtra, Field, BitsOf, Pow2, StartsWith;
    TokensStep(s, pos, out, lit, dist, final);
    match t
    case Literal(b) =>
      SymbolAt(lit, s, pos, b);
    case Copy(n, x, k, y) =>
      var c := BitsOf(y, DistanceExtra(k));
      var b := Codeword(dist, k) + c;
      var a := BitsOf(x, LengthExtra(n)) + b;
      Split(s, pos, Codeword(lit, n), a);
      SymbolAt(lit, s, pos, n);
      var p := pos + lit[n];
      Split(s, p, BitsOf(x, LengthExtra(n)), b);
      FieldAt(s, p, x, LengthExtra(n));
      p := p + LengthExtra(n);
      DistanceStep(s, p, out, lit, dist, final, CopyLength(t));
      Split(s, p, Codeword(dist, k), c);
      SymbolAt(dist, s, p, k);
      FieldAt(s, p + dist[k], y, DistanceExtra(k));
  }

  lemma {:induction false} TokensRoundTrip(s: bits, pos: nat, out: seq<byte>, lit: lengths, dist: lengths, final: bool, ts: seq<token>)
    requires Usable(lit) && Usable(dist) && HaveCodes(ts, lit, dist) && Reaching(ts, |out|)
    requires StartsWith(s, pos, TokensBits(ts, lit, dist))
    ensures Tokens(s, pos, out, lit, dist, final)
      == Next(s, pos + |TokensBits(ts, lit, dist)|, Expand(ts, out), final)
    decreases |ts|
  {
    hide Tokens, Next, Decode, Codeword, Usable, Extend, StartsWith, TokenBits, Formed;
    if |ts| == 0 {
      TokensStep(s, pos, out, lit, dist, final);
      SymbolAt(lit, s, pos, 256);
    } else {
      Split(s, pos, TokenBits(ts[0], lit, dist), TokensBits(ts[1..], lit, dist));
      OneToken(s, pos, out, lit, dist, final, ts[0]);
      TokensRoundTrip(s, pos + |TokenBits(ts[0], lit, dist)|, Apply(ts[0], out), lit, dist, final, ts[1..]);
    }
  }

  // ----- dynamic code lengths -----

  predicate GivenOk(g: Given, cl: lengths, known: nat)
    requires |cl| == 19
  {
    match g
    case Length(v) => v <= 15 && cl[v] > 0
    case Again(x) => x < 4 && known > 0 && cl[16] > 0
    case ShortZeros(x) => x < 8 && cl[17] > 0
    case LongZeros(x) => x < 128 && cl[18] > 0
  }

  function GivenBits(g: Given, cl: lengths, known: nat): bits
    requires |cl| == 19 && GivenOk(g, cl, known)
  {
    match g
    case Length(v) => Codeword(cl, v)
    case Again(x) => Codeword(cl, 16) + BitsOf(x, 2)
    case ShortZeros(x) => Codeword(cl, 17) + BitsOf(x, 3)
    case LongZeros(x) => Codeword(cl, 18) + BitsOf(x, 7)
  }

  function GivenLengths(g: Given, cl: lengths, lens: lengths): (r: lengths)
    requires |cl| == 19 && GivenOk(g, cl, |lens|)
    ensures |r| > |lens|
  {
    match g
    case Length(v) => lens + [v]
    case Again(x) => lens + Repeat(lens[|lens| - 1], x + 3)
    case ShortZeros(x) => lens + Repeat(0, x + 3)
    case LongZeros(x) => lens + Repeat(0, x + 11)
  }

  predicate AllGivenOk(gs: seq<Given>, cl: lengths, lens: lengths)
    requires |cl| == 19
  {
    |gs| > 0 ==> GivenOk(gs[0], cl, |lens|) && AllGivenOk(gs[1..], cl, GivenLengths(gs[0], cl, lens))
  }

  function AllLengths(gs: seq<Given>, cl: lengths, lens: lengths): (r: lengths)
    requires |cl| == 19 && AllGivenOk(gs, cl, lens)
    ensures |r| >= |lens| + |gs|
  {
    if |gs| == 0 then lens else AllLengths(gs[1..], cl, GivenLengths(gs[0], cl, lens))
  }

  function AllGivenBits(gs: seq<Given>, cl: lengths, lens: lengths): bits
    requires |cl| == 19 && AllGivenOk(gs, cl, lens)
  {
    if |gs| == 0 then [] else GivenBits(gs[0], cl, |lens|) + AllGivenBits(gs[1..], cl, GivenLengths(gs[0], cl, lens))
  }

  lemma OneGiven(s: bits, pos: nat, out: seq<byte>, cl: lengths, lens: lengths, hlit: nat, hdist: nat, final: bool, g: Given)
    requires |cl| == 19 && Kraft(cl) == FULL && GivenOk(g, cl, |lens|) && |lens| < hlit + hdist
    requires StartsWith(s, pos, GivenBits(g, cl, |lens|))
    ensures Lengths(s, pos, out, cl, lens, hlit, hdist, final)
      == Lengths(s, pos + |GivenBits(g, cl, |lens|)|, out, cl, GivenLengths(g, cl, lens), hlit, hdist, final)
  {
    hide *;
    Powers();
    LengthsStep(s, pos, out, cl, lens, hlit, hdist, final);
    GivenParts(g, cl, lens);
    match g
    case Length(v) => SymbolAt(cl, s, pos, v);
    case Again(x) => SymbolThen(cl, s, pos, 16, x, 2);
    case ShortZeros(x) => SymbolThen(cl, s, pos, 17, x, 3);
    case LongZeros(x) => SymbolThen(cl, s, pos, 18, x, 7);
  }

  lemma GivenParts(g: Given, cl: lengths, lens: lengths)
    requires |cl| == 19 && Kraft(cl) == FULL && GivenOk(g, cl, |lens|)
    ensures Usable(cl)
    ensures g.Length? ==> g.v <= 15 && cl[g.v] > 0 && GivenBits(g, cl, |lens|) == Codeword(cl, g.v) && GivenLengths(g, cl, lens) == lens + [g.v]
    ensures g.Again? ==> g.x < 4 && |lens| > 0 && cl[16] > 0 && GivenBits(g, cl, |lens|) == Codeword(cl, 16) + BitsOf(g.x, 2)
    ensures g.Again? ==> GivenLengths(g, cl, lens) == lens + Repeat(lens[|lens| - 1], g.x + 3)
    ensures g.ShortZeros? ==> g.x < 8 && cl[17] > 0 && GivenBits(g, cl, |lens|) == Codeword(cl, 17) + BitsOf(g.x, 3)
    ensures g.ShortZeros? ==> GivenLengths(g, cl, lens) == lens + Repeat(0, g.x + 3)
    ensures g.LongZeros? ==> g.x < 128 && cl[18] > 0 && GivenBits(g, cl, |lens|) == Codeword(cl, 18) + BitsOf(g.x, 7)
    ensures g.LongZeros? ==> GivenLengths(g, cl, lens) == lens + Repeat(0, g.x + 11)
  {
    hide Kraft, Codeword, BitsOf, Repeat;
  }

  lemma SymbolThen(lens: lengths, s: bits, pos: nat, n: nat, x: nat, k: nat)
    requires Usable(lens) && n < |lens| && lens[n] > 0 && x < Pow2(k) && StartsWith(s, pos, Codeword(lens, n) + BitsOf(x, k))
    ensures Decode(lens, s, pos) == Some(n) && pos + lens[n] + k <= |s| && Field(s, pos + lens[n], k) == x
  {
    hide Decode, Codeword, Usable, Field, BitsOf, Pow2, StartsWith;
    Split(s, pos, Codeword(lens, n), BitsOf(x, k));
    SymbolAt(lens, s, pos, n);
    FieldAt(s, pos + lens[n], x, k);
  }

  lemma {:induction false} LengthsRoundTrip(s: bits, pos: nat, out: seq<byte>, cl: lengths, lens: lengths, hlit: nat, hdist: nat, final: bool, gs: seq<Given>)
    requires |cl| == 19 && Kraft(cl) == FULL && AllGivenOk(gs, cl, lens) && |AllLengths(gs, cl, lens)| == hlit + hdist
    requires StartsWith(s, pos, AllGivenBits(gs, cl, lens))
    ensures Lengths(s, pos, out, cl, lens, hlit, hdist, final)
      == Lengths(s, pos + |AllGivenBits(gs, cl, lens)|, out, cl, AllLengths(gs, cl, lens), hlit, hdist, final)
    decreases |gs|
  {
    hide Lengths, Kraft, GivenBits, GivenLengths, GivenOk, StartsWith;
    if |gs| > 0 {
      var next := GivenLengths(gs[0], cl, lens);
      Split(s, pos, GivenBits(gs[0], cl, |lens|), AllGivenBits(gs[1..], cl, next));
      OneGiven(s, pos, out, cl, lens, hlit, hdist, final, gs[0]);
      LengthsRoundTrip(s, pos + |GivenBits(gs[0], cl, |lens|)|, out, cl, next, hlit, hdist, final, gs[1..]);
    }
  }

  /** The lengths of the code length alphabet, in the order of section 3.2.7. */
  function AlphabetBits(cl: lengths, n: nat): (r: bits)
    requires |cl| == 19 && n <= 19
    ensures |r| == 3 * n
  {
    if n == 0 then [] else AlphabetBits(cl, n - 1) + BitsOf(cl[Order(n - 1)], 3)
  }

  /** The lengths after the first n in that order are known. */
  function Partly(cl: lengths, n: nat): (r: lengths)
    requires |cl| == 19 && n <= 19
    ensures |r| == 19
  {
    if n == 0 then Repeat(0, 19) else Partly(cl, n - 1)[Order(n - 1) := cl[Order(n - 1)]]
  }

  lemma {:induction false} AlphabetRoundTrip(s: bits, pos: nat, cl: lengths, n: nat)
    requires |cl| == 19 && n <= 19 && (forall i :: 0 <= i < 19 ==> cl[i] <= 7)
    requires StartsWith(s, pos, AlphabetBits(cl, n))
    ensures pos + 3 * n <= |s| && Alphabet(s, pos, n) == Partly(cl, n)
  {
    if n > 0 {
      hide Field, BitsOf, StartsWith, Pow2;
      Powers();
      Split(s, pos, AlphabetBits(cl, n - 1), BitsOf(cl[Order(n - 1)], 3));
      AlphabetRoundTrip(s, pos, cl, n - 1);
      FieldAt(s, pos + 3 * (n - 1), cl[Order(n - 1)], 3);
    }
  }

  /** Where i stands in ORDER. */
  function Place(i: nat): (k: nat)
    requires i < 19
    ensures k < 19 && Order(k) == i
  {
    [3, 17, 15, 13, 11, 9, 7, 5, 4, 6, 8, 10, 12, 14, 16, 18, 0, 1, 2][i]
  }

  lemma {:induction false} PartlyAt(cl: lengths, n: nat, i: nat)
    requires |cl| == 19 && n <= 19 && i < 19
    ensures Partly(cl, n)[i] == if Place(i) < n then cl[i] else 0
  {
    if n > 0 {
      PartlyAt(cl, n - 1, i);
      PlaceOf(n - 1);
    }
  }

  lemma PlaceOf(k: nat)
    requires k < 19
    ensures Place(Order(k)) == k
  {
  }

  lemma WholeAlphabet(s: bits, pos: nat, cl: lengths, n: nat)
    requires |cl| == 19 && n <= 19 && (forall i :: 0 <= i < 19 ==> cl[i] <= 7)
    requires forall i :: n <= i < 19 ==> cl[Order(i)] == 0
    requires StartsWith(s, pos, AlphabetBits(cl, n))
    ensures pos + 3 * n <= |s| && Alphabet(s, pos, n) == cl
  {
    AlphabetRoundTrip(s, pos, cl, n);
    hide Alphabet, AlphabetBits, Partly;
    forall i | 0 <= i < 19
      ensures Alphabet(s, pos, n)[i] == cl[i]
    {
      PartlyAt(cl, n, i);
    }
  }

  // ----- blocks -----

  /** A dynamic block's code lengths of the two alphabets. */
  function LiteralLengths(b: Coded): lengths
    requires b.DynamicBlock? && |b.cl| == 19 && AllGivenOk(b.givens, b.cl, []) && |AllLengths(b.givens, b.cl, [])| == b.hlit + b.hdist
  {
    AllLengths(b.givens, b.cl, [])[..b.hlit]
  }

  function DistanceLengths(b: Coded): lengths
    requires b.DynamicBlock? && |b.cl| == 19 && AllGivenOk(b.givens, b.cl, []) && |AllLengths(b.givens, b.cl, [])| == b.hlit + b.hdist
  {
    AllLengths(b.givens, b.cl, [])[b.hlit..]
  }

  predicate DynamicOk(b: Coded)
    requires b.DynamicBlock?
  {
    && 257 <= b.hlit <= 286 && 1 <= b.hdist <= 30 && 4 <= b.hclen <= 19
    && |b.cl| == 19 && (forall i :: 0 <= i < 19 ==> b.cl[i] <= 7) && Kraft(b.cl) == FULL
    && (forall i :: b.hclen <= i < 19 ==> b.cl[Order(i)] == 0)
    && AllGivenOk(b.givens, b.cl, []) && |AllLengths(b.givens, b.cl, [])| == b.hlit + b.hdist
    && Usable(LiteralLengths(b)) && Usable(DistanceLengths(b))
    && HaveCodes(b.tokens, LiteralLengths(b), DistanceLengths(b))
  }

  /** The block can be written. */
  predicate Writable(b: Coded) {
    match b
    case StoredBlock(pad, data) => |data| < 0x10000 && |pad| == 7
    case FixedBlock(tokens) => HaveCodes(tokens, FixedLiteral(), FixedDistance())
    case DynamicBlock(_, _, _, _, _, _) => DynamicOk(b)
  }

  /** Its copies reach no further than the size bytes before it. */
  predicate Reaches(b: Coded, size: nat) {
    b.StoredBlock? || Reaching(b.tokens, size)
  }

  function BlockOut(b: Coded, out: seq<byte>): seq<byte>
    requires Reaches(b, |out|)
  {
    match b
    case StoredBlock(_, data) => out + data
    case FixedBlock(tokens) => Expand(tokens, out)
    case DynamicBlock(_, _, _, _, _, tokens) => Expand(tokens, out)
  }

  function Kind(b: Coded): nat {
    match b
    case StoredBlock(_, _) => 0
    case FixedBlock(_) => 1
    case DynamicBlock(_, _, _, _, _, _) => 2
  }

  function StoredBits(b: Coded, pos: nat): bits
    requires b.StoredBlock? && Writable(b)
  {
    b.pad[..Align(pos + 3) - (pos + 3)] + (BitsOf(|b.data|, 16) + (BitsOf(0xFFFF - |b.data|, 16) + Stream(b.data)))
  }

  function SizesBits(b: Coded): (r: bits)
    requires b.DynamicBlock? && DynamicOk(b)
    ensures |r| == 14
  {
    BitsOf((b.hlit - 257) + 32 * ((b.hdist - 1) + 32 * (b.hclen - 4)), 14)
  }

  function DynamicBits(b: Coded): bits
    requires b.DynamicBlock? && DynamicOk(b)
  {
    SizesBits(b) + (AlphabetBits(b.cl, b.hclen) + (AllGivenBits(b.givens, b.cl, [])
      + TokensBits(b.tokens, LiteralLengths(b), DistanceLengths(b))))
  }

  /** A block written at bit position pos. */
  function BlockBits(b: Coded, final: bool, pos: nat): bits
    requires Writable(b)
  {
    BitsOf((if final then 1 else 0) + 2 * Kind(b), 3) +
    match b
    case StoredBlock(_, _) => StoredBits(b, pos)
    case FixedBlock(tokens) => TokensBits(tokens, FixedLiteral(), FixedDistance())
    case DynamicBlock(_, _, _, _, _, _) => DynamicBits(b)
  }

  lemma {:induction false} RawRoundTrip(s: bits, pos: nat, out: seq<byte>, data: seq<byte>, final: bool)
    requires StartsWith(s, pos, Stream(data))
    ensures Raw(s, pos, out, |data|, final) == Next(s, pos + 8 * |data|, out + data, final)
    decreases |data|
  {
    hide Raw, Next, Field, StartsWith, BitsOf, Pow2;
    if |data| == 0 {
      RawEnd(s, pos, out, final);
      assert out + data == out;
    } else {
      Split(s, pos, BitsOf(data[0], 8), Stream(data[1..]));
      RawStep(s, pos, out, |data|, final);
      ByteValue(data[0]);
      FieldAt(s, pos, data[0], 8);
      RawRoundTrip(s, pos + 8, out + [data[0]], data[1..], final);
      assert out + [data[0]] + data[1..] == out + data;
    }
  }

  lemma ByteValue(b: byte)
    ensures b < Pow2(8)
  {
  }

  lemma StoredRoundTrip(s: bits, pos: nat, out: seq<byte>, b: Coded, final: bool)
    requires b.StoredBlock? && Writable(b) && StartsWith(s, pos + 3, StoredBits(b, pos))
    ensures Stored(s, Align(pos + 3), out, final) == Next(s, pos + 3 + |StoredBits(b, pos)|, BlockOut(b, out), final)
  {
    hide Stored, Raw, Next, Field, StartsWith, BitsOf, Pow2, Stream;
    var n := |b.data|;
    var d := Stream(b.data);
    var c := BitsOf(0xFFFF - n, 16) + d;
    Split(s, pos + 3, b.pad[..Align(pos + 3) - (pos + 3)], BitsOf(n, 16) + c);
    var p := Align(pos + 3);
    Split(s, p, BitsOf(n, 16), c);
    Split(s, p + 16, BitsOf(0xFFFF - n, 16), d);
    Pow2Sixteen();
    FieldAt(s, p, n, 16);
    FieldAt(s, p + 16, 0xFFFF - n, 16);
    StoredCases(s, p, out, final);
    RawRoundTrip(s, p + 32, out, b.data, final);
  }

  lemma SizesValue(b: Coded)
    requires b.DynamicBlock? && DynamicOk(b)
    ensures var f := (b.hlit - 257) + 32 * ((b.hdist - 1) + 32 * (b.hclen - 4));
      f < 0x4000 == Pow2(14) && f % 32 == b.hlit - 257 && f / 32 % 32 == b.hdist - 1 && f / 1024 == b.hclen - 4
  {
    ThreeParts((b.hlit - 257) + 32 * ((b.hdist - 1) + 32 * (b.hclen - 4)), b.hlit - 257, b.hdist - 1, b.hclen - 4);
    assert Pow2(7) == 128;
    Pow2Add(7, 7);
  }

  lemma DynamicHead(s: bits, pos: nat, out: seq<byte>, b: Coded, final: bool, rest: bits)
    requires b.DynamicBlock? && DynamicOk(b) && StartsWith(s, pos, SizesBits(b) + (AlphabetBits(b.cl, b.hclen) + rest))
    ensures var p := pos + 14 + 3 * b.hclen;
      StartsWith(s, p, rest) && Dynamic(s, pos, out, final) == Lengths(s, p, out, b.cl, [], b.hlit, b.hdist, final)
  {
    hide Dynamic, Sized, Lengths, Field, StartsWith, BitsOf, Pow2, Kraft, Alphabet, AlphabetBits, AllLengths, Usable, AllGivenOk, HaveCodes;
    SizesValue(b);
    DynamicCases(s, pos, out, final);
    Split(s, pos, SizesBits(b), AlphabetBits(b.cl, b.hclen) + rest);
    FieldAt(s, pos, (b.hlit - 257) + 32 * ((b.hdist - 1) + 32 * (b.hclen - 4)), 14);
    Split(s, pos + 14, AlphabetBits(b.cl, b.hclen), rest);
    WholeAlphabet(s, pos + 14, b.cl, b.hclen);
    SizedCases(s, pos + 14, out, b.hlit - 257, b.hdist - 1, b.hclen - 4, final);
  }

  lemma DynamicRoundTrip(s: bits, pos: nat, out: seq<byte>, b: Coded, final: bool)
    requires b.DynamicBlock? && Writable(b) && Reaches(b, |out|) && StartsWith(s, pos, DynamicBits(b))
    ensures Dynamic(s, pos, out, final) == Next(s, pos + |DynamicBits(b)|, BlockOut(b, out), final)
  {
    hide Dynamic, Lengths, Tokens, Next, StartsWith, Kraft, SizesBits, AlphabetBits, AllGivenBits, TokensBits, Usable, AllGivenOk, Expand, Reaching, HaveCodes;
    var lit, dist := LiteralLengths(b), DistanceLengths(b);
    var t, g := TokensBits(b.tokens, lit, dist), AllGivenBits(b.givens, b.cl, []);
    DynamicHead(s, pos, out, b, final, g + t);
    var p := pos + 14 + 3 * b.hclen;
    Split(s, p, g, t);
    LengthsRoundTrip(s, p, out, b.cl, [], b.hlit, b.hdist, final, b.givens);
    LengthsEnd(s, p + |g|, out, b.cl, AllLengths(b.givens, b.cl, []), b.hlit, b.hdist, final);
    TokensRoundTrip(s, p + |g|, out, lit, dist, final, b.tokens);
  }

  lemma FixedUsable()
    ensures Usable(FixedLiteral()) && Usable(FixedDistance())
  {
    hide Kraft, FixedLiteral, FixedDistance;
    FixedCodes.FixedComplete();
  }

  lemma HeaderValue(b: Coded, final: bool)
    ensures var f := (if final then 1 else 0) + 2 * Kind(b); f < Pow2(3) && f / 2 == Kind(b) && (f % 2 == 1 <==> final)
  {
  }

  lemma OneBlock(s: bits, pos: nat, out: seq<byte>, b: Coded, final: bool)
    requires Writable(b) && Reaches(b, |out|) && StartsWith(s, pos, BlockBits(b, final, pos))
    ensures Block(s, pos, out) == Next(s, pos + |BlockBits(b, final, pos)|, BlockOut(b, out), final)
  {
    HeaderValue(b, final);
    hide Block, Next, Stored, Dynamic, Tokens, Field, StartsWith, BitsOf, Pow2, StoredBits, DynamicBits, TokensBits, HaveCodes, DynamicOk, FixedLiteral, FixedDistance, Reaching, Expand;
    var f := (if final then 1 else 0) + 2 * Kind(b);
    match b
    case StoredBlock(_, _) =>
      Split(s, pos, BitsOf(f, 3), StoredBits(b, pos));
      FieldAt(s, pos, f, 3);
      BlockCases(s, pos, out);
      StoredRoundTrip(s, pos, out, b, final);
    case FixedBlock(tokens) =>
      Split(s, pos, BitsOf(f, 3), TokensBits(tokens, FixedLiteral(), FixedDistance()));
      FieldAt(s, pos, f, 3);
      BlockCases(s, pos, out);
      FixedUsable();
      TokensRoundTrip(s, pos + 3, out, FixedLiteral(), FixedDistance(), final, tokens);
    case DynamicBlock(_, _, _, _, _, _) =>
      Split(s, pos, BitsOf(f, 3), DynamicBits(b));
      FieldAt(s, pos, f, 3);
      BlockCases(s, pos, out);
      DynamicRoundTrip(s, pos + 3, out, b, final);
  }

  // ----- streams -----

  predicate AllWritable(bs: seq<Coded>) {
    |bs| > 0 && forall i :: 0 <= i < |bs| ==> Writable(bs[i])
  }

  predicate AllReach(bs: seq<Coded>, out: seq<byte>) {
    |bs| > 0 ==> Reaches(bs[0], |out|) && AllReach(bs[1..], BlockOut(bs[0], out))
  }

  function StreamOut(bs: seq<Coded>, out: seq<byte>): seq<byte>
    requires AllReach(bs, out)
  {
    if |bs| == 0 then out else StreamOut(bs[1..], BlockOut(bs[0], out))
  }

  /** Blocks from bit position pos, the last one marked as final. */
  function StreamBits(bs: seq<Coded>, pos: nat): bits
    requires AllWritable(bs)
  {
    if |bs| == 1 then BlockBits(bs[0], true, pos)
    else
      var e := BlockBits(bs[0], false, pos);
      e + StreamBits(bs[1..], pos + |e|)
  }

  /** Where blocks are encoded, decoding gives what they stand for and ends behind them. */
  lemma {:induction false} RoundTrip(s: bits, pos: nat, out: seq<byte>, bs: seq<Coded>)
    requires AllWritable(bs) && AllReach(bs, out) && StartsWith(s, pos, StreamBits(bs, pos))
    ensures Block(s, pos, out) == Done(StreamOut(bs, out), pos + |StreamBits(bs, pos)|)
    decreases |bs|
  {
    hide Block, BlockBits, BlockOut, Writable, Reaches, StartsWith;
    if |bs| == 1 {
      OneBlock(s, pos, out, bs[0], true);
      NextCases(s, pos + |BlockBits(bs[0], true, pos)|, BlockOut(bs[0], out), true);
    } else {
      var e := BlockBits(bs[0], false, pos);
      Split(s, pos, e, StreamBits(bs[1..], pos + |e|));
      OneBlock(s, pos, out, bs[0], false);
      NextCases(s, pos + |e|, BlockOut(bs[0], out), false);
      RoundTrip(s, pos + |e|, BlockOut(bs[0], out), bs[1..]);
    }
  }

  // ----- everything can be encoded -----

  lemma LengthGap(n: nat)
    requires 257 <= n < 285
    ensures LengthBase(n) < LengthBase(n + 1) == if n == 284 then 258 else LengthBase(n) + Pow2(LengthExtra(n))
  {
    ShortPower(LengthExtra(n));
    hide Pow2;
  }

  lemma ShortPower(e: nat)
    requires e <= 5
    ensures Pow2(e) == if e == 0 then 1 else if e == 1 then 2 else if e == 2 then 4 else if e == 3 then 8 else if e == 4 then 16 else 32
  {
    Powers();
  }

  lemma DistanceGap(k: nat)
    requires k < 29
    ensures DistanceBase(k) < DistanceBase(k + 1) == DistanceBase(k) + Pow2(DistanceExtra(k))
  {
    Powers();
    hide Pow2;
  }

  lemma Ends()
    ensures LengthBase(257) == 3 && LengthBase(284) == 227 && LengthExtra(284) == 5 && LengthBase(285) == 258 && LengthExtra(285) == 0
    ensures DistanceBase(0) == 1 && DistanceBase(29) + Pow2(DistanceExtra(29)) == 32769
  {
    Powers();
    hide Pow2;
  }

  /** Every length from 3 to 258 and every distance up to 32768 can be written as a copy, by the rules of the tables
      of section 3.2.5. */
  lemma CopyToken(len: nat, dist: nat) returns (t: token)
    requires 3 <= len <= 258 && 1 <= dist <= 32768
    ensures t.Copy? && CopyLength(t) == len && CopyDistance(t) == dist
    ensures len == t.extra +
      if t.symbol < 265 then t.symbol - 254
      else if t.symbol == 285 then 258
      else 3 + Pow2((t.symbol - 261) / 4) * (4 + (t.symbol - 265) % 4)
    ensures dist == t.far + if t.key < 4 then t.key + 1 else 1 + Pow2((t.key - 2) / 2) * (2 + t.key % 2)
  {
    Ends();
    Powers();
    hide LengthBase, LengthExtra, DistanceBase, DistanceExtra, Pow2;
    var n := 257;
    while n < 285 && LengthBase(n + 1) <= len
      invariant 257 <= n <= 285 && LengthBase(n) <= len
    {
      n := n + 1;
    }
    var k := 0;
    while k < 29 && DistanceBase(k + 1) <= dist
      invariant 0 <= k <= 29 && DistanceBase(k) <= dist
    {
      k := k + 1;
    }
    if n < 285 {
      LengthGap(n);
    }
    if k < 29 {
      DistanceGap(k);
    }
    Rfc1951.LengthTable(n);
    Rfc1951.DistanceTable(k);
    t := Copy(n, len - LengthBase(n), k, dist - DistanceBase(k));
  }

  /** Every byte string is the output of some stream. */
  lemma {:induction false} EveryOutput(data: seq<byte>, out: seq<byte>) returns (bs: seq<Coded>)
    ensures AllWritable(bs) && AllReach(bs, out) && StreamOut(bs, out) == out + data
    decreases |data|
  {
    if |data| < 0x10000 {
      bs := [StoredBlock(Zeros(7), data)];
    } else {
      var b := StoredBlock(Zeros(7), data[..0xFFFF]);
      var more := EveryOutput(data[0xFFFF..], out + data[..0xFFFF]);
      assert ([b] + more)[1..] == more;
      bs := [b] + more;
      assert out + data[..0xFFFF] + data[0xFFFF..] == out + data;
    }
  }
}
