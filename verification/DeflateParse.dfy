/** The converse of the round trip: whatever decodes is an encoding. Together they give the format a second,
    independent definition as the set of encodings, and the decoder as its inverse. */
module DeflateParse {
  import opened Wrappers
  import opened Bits
  import opened Canonical
  import opened DeflateSpec
  import opened DeflateEncode

  lemma Join(s: bits, pos: nat, a: bits, b: bits)
    requires StartsWith(s, pos, a) && StartsWith(s, pos + |a|, b)
    ensures StartsWith(s, pos, a + b)
  {
    assert s[pos..pos + |a| + |b|] == s[pos..pos + |a|] + s[pos + |a|..pos + |a| + |b|];
  }

  lemma FieldBits(s: bits, pos: nat, n: nat)
    requires pos + n <= |s|
    ensures Field(s, pos, n) < Pow2(n) && StartsWith(s, pos, BitsOf(Field(s, pos, n), n))
  {
    NatOfBound(s[pos..pos + n]);
    BitsOfNatOf(s[pos..pos + n]);
    hide NatOf, BitsOf, Pow2;
  }

  /** A symbol and the number in the extra bits behind it. */
  lemma SymbolField(lens: lengths, s: bits, pos: nat, n: nat, k: nat)
    requires Decode(lens, s, pos) == Some(n) && pos + lens[n] + k <= |s|
    ensures Field(s, pos + lens[n], k) < Pow2(k)
    ensures StartsWith(s, pos, Codeword(lens, n) + BitsOf(Field(s, pos + lens[n], k), k))
  {
    hide StartsWith, Codeword, Field, BitsOf, Pow2, Decode;
    FieldBits(s, pos + lens[n], k);
    Join(s, pos, Codeword(lens, n), BitsOf(Field(s, pos + lens[n], k), k));
  }

  lemma LiteralFacts(n: nat, lit: lengths, dist: lengths, out: seq<byte>) returns (t: token)
    requires n < 256 && n < |lit| && lit[n] > 0
    ensures t == Literal(n) && HasCode(t, lit, dist) && TokenBits(t, lit, dist) == Codeword(lit, n) && Apply(t, out) == out + [n]
  {
    hide Codeword;
    t := Literal(n);
  }

  lemma CopyFacts(n: nat, x: nat, k: nat, y: nat, lit: lengths, dist: lengths, out: seq<byte>) returns (t: token)
    requires 257 <= n <= 285 && x < Pow2(LengthExtra(n)) && k < 30 && y < Pow2(DistanceExtra(k))
    requires n < |lit| && lit[n] > 0 && k < |dist| && dist[k] > 0 && DistanceBase(k) + y <= |out|
    ensures t == Copy(n, x, k, y) && HasCode(t, lit, dist) && CopyDistance(t) == DistanceBase(k) + y
    ensures TokenBits(t, lit, dist) == Codeword(lit, n) + BitsOf(x, LengthExtra(n)) + (Codeword(dist, k) + BitsOf(y, DistanceExtra(k)))
    ensures Apply(t, out) == Extend(out, DistanceBase(k) + y, LengthBase(n) + x)
  {
    hide *;
    CopyFormed(n, x, k, y);
    t := Copy(n, x, k, y);
    CopyParts(t, lit, dist, out);
    CopyBits(t, lit, dist);
  }

  lemma CopyFormed(n: nat, x: nat, k: nat, y: nat)
    requires 257 <= n <= 285 && x < Pow2(LengthExtra(n)) && k < 30 && y < Pow2(DistanceExtra(k))
    ensures Formed(Copy(n, x, k, y))
  {
    hide LengthBase, LengthExtra, DistanceBase, DistanceExtra, Pow2;
  }

  lemma CopyParts(t: token, lit: lengths, dist: lengths, out: seq<byte>)
    requires t.Copy? && t.symbol < |lit| && lit[t.symbol] > 0 && t.key < |dist| && dist[t.key] > 0
    ensures HasCode(t, lit, dist) && CopyDistance(t) == DistanceBase(t.key) + t.far
    ensures CopyDistance(t) <= |out| ==> Apply(t, out) == Extend(out, DistanceBase(t.key) + t.far, LengthBase(t.symbol) + t.extra)
  {
    hide Extend, LengthBase, LengthExtra, DistanceBase, DistanceExtra, Pow2;
  }

  lemma CopyBits(t: token, lit: lengths, dist: lengths)
    requires t.Copy? && HasCode(t, lit, dist)
    ensures TokenBits(t, lit, dist)
      == Codeword(lit, t.symbol) + BitsOf(t.extra, LengthExtra(t.symbol)) + (Codeword(dist, t.key) + BitsOf(t.far, DistanceExtra(t.key)))
  {
    hide Codeword, BitsOf, LengthBase, LengthExtra, DistanceBase, DistanceExtra, Pow2;
    Assoc(Codeword(lit, t.symbol), BitsOf(t.extra, LengthExtra(t.symbol)), Codeword(dist, t.key) + BitsOf(t.far, DistanceExtra(t.key)));
  }

  lemma Assoc(a: bits, b: bits, c: bits)
    ensures (a + b) + c == a + (b + c)
  {
  }

  lemma ParseToken(s: bits, pos: nat, out: seq<byte>, lit: lengths, dist: lengths, final: bool) returns (t: token)
    requires Tokens(s, pos, out, lit, dist, final).Done? && Decode(lit, s, pos) != Some(256)
    ensures HasCode(t, lit, dist) && (t.Copy? ==> CopyDistance(t) <= |out|) && StartsWith(s, pos, TokenBits(t, lit, dist))
    ensures Tokens(s, pos, out, lit, dist, final) == Tokens(s, pos + |TokenBits(t, lit, dist)|, Apply(t, out), lit, dist, final)
    ensures |TokenBits(t, lit, dist)| > 0
  {
    hide *;
    TokensStep(s, pos, out, lit, dist, final);
    var n := Decode(lit, s, pos).value;
    SymbolAtPlace(lit, s, pos, n);
    if n < 256 {
      t := LiteralFacts(n, lit, dist, out);
    } else {
      var e := LengthExtra(n);
      SymbolField(lit, s, pos, n, e);
      var x, p := Field(s, pos + lit[n], e), pos + lit[n] + e;
      DistanceStep(s, p, out, lit, dist, final, LengthBase(n) + x);
      var k := Decode(dist, s, p).value;
      SymbolAtPlace(dist, s, p, k);
      SymbolField(dist, s, p, k, DistanceExtra(k));
      var y := Field(s, p + dist[k], DistanceExtra(k));
      t := CopyFacts(n, x, k, y, lit, dist, out);
      Join(s, pos, Codeword(lit, n) + BitsOf(x, e), Codeword(dist, k) + BitsOf(y, DistanceExtra(k)));
    }
  }

  lemma SymbolAtPlace(lens: lengths, s: bits, pos: nat, n: nat)
    requires Decode(lens, s, pos) == Some(n)
    ensures n < |lens| && lens[n] > 0 && StartsWith(s, pos, Codeword(lens, n))
  {
    hide Codeword, StartsWith;
  }

  lemma NoTokens(lit: lengths, dist: lengths, s: bits, pos: nat)
    requires Decode(lit, s, pos) == Some(256)
    ensures HaveCodes([], lit, dist) && TokensBits([], lit, dist) == Codeword(lit, 256) && StartsWith(s, pos, Codeword(lit, 256))
    ensures forall size: nat :: Reaching([], size)
  {
    hide Codeword, StartsWith;
  }

  lemma MoreTokens(t: token, ts: seq<token>, lit: lengths, dist: lengths, out: seq<byte>)
    requires HasCode(t, lit, dist) && HaveCodes(ts, lit, dist) && (t.Copy? ==> CopyDistance(t) <= |out|)
    requires Reaching(ts, |Apply(t, out)|)
    ensures HaveCodes([t] + ts, lit, dist) && Reaching([t] + ts, |out|)
    ensures TokensBits([t] + ts, lit, dist) == TokenBits(t, lit, dist) + TokensBits(ts, lit, dist)
  {
    hide TokenBits, Codeword, Formed, Extend;
    assert ([t] + ts)[1..] == ts;
  }

  lemma {:induction false} ParseTokens(s: bits, pos: nat, out: seq<byte>, lit: lengths, dist: lengths, final: bool) returns (ts: seq<token>)
    requires Tokens(s, pos, out, lit, dist, final).Done?
    ensures HaveCodes(ts, lit, dist) && Reaching(ts, |out|) && StartsWith(s, pos, TokensBits(ts, lit, dist))
    decreases if pos <= |s| then |s| - pos else 0
  {
    hide *;
    if Decode(lit, s, pos) == Some(256) {
      ts := [];
      NoTokens(lit, dist, s, pos);
    } else {
      var t := ParseToken(s, pos, out, lit, dist, final);
      Inside(s, pos, TokenBits(t, lit, dist));
      var more := ParseTokens(s, pos + |TokenBits(t, lit, dist)|, Apply(t, out), lit, dist, final);
      Join(s, pos, TokenBits(t, lit, dist), TokensBits(more, lit, dist));
      MoreTokens(t, more, lit, dist, out);
      ts := [t] + more;
    }
  }

  lemma Inside(s: bits, pos: nat, a: bits)
    requires StartsWith(s, pos, a)
    ensures pos + |a| <= |s|
  {
  }

  // ----- dynamic code lengths -----

  lemma ParseGiven(s: bits, pos: nat, out: seq<byte>, cl: lengths, lens: lengths, hlit: nat, hdist: nat, final: bool) returns (g: Given)
    requires |cl| == 19 && |lens| < hlit + hdist && Lengths(s, pos, out, cl, lens, hlit, hdist, final).Done?
    ensures GivenOk(g, cl, |lens|) && StartsWith(s, pos, GivenBits(g, cl, |lens|)) && |GivenBits(g, cl, |lens|)| > 0
    ensures Lengths(s, pos, out, cl, lens, hlit, hdist, final)
      == Lengths(s, pos + |GivenBits(g, cl, |lens|)|, out, cl, GivenLengths(g, cl, lens), hlit, hdist, final)
  {
    Powers();
    hide Lengths, Decode, Codeword, Field, BitsOf, Pow2, StartsWith, Repeat;
    LengthsStep(s, pos, out, cl, lens, hlit, hdist, final);
    var sym := Decode(cl, s, pos).value;
    var p := pos + cl[sym];
    if sym <= 15 {
      g := Length(sym);
    } else if sym == 16 {
      SymbolField(cl, s, pos, sym, 2);
      g := Again(Field(s, p, 2));
    } else if sym == 17 {
      SymbolField(cl, s, pos, sym, 3);
      g := ShortZeros(Field(s, p, 3));
    } else {
      SymbolField(cl, s, pos, sym, 7);
      g := LongZeros(Field(s, p, 7));
    }
  }

  lemma NoGivens(cl: lengths, lens: lengths, s: bits, pos: nat)
    requires |cl| == 19 && pos <= |s|
    ensures AllGivenOk([], cl, lens) && AllLengths([], cl, lens) == lens && AllGivenBits([], cl, lens) == [] && StartsWith(s, pos, [])
  {
  }

  lemma MoreGivens(g: Given, gs: seq<Given>, cl: lengths, lens: lengths)
    requires |cl| == 19 && GivenOk(g, cl, |lens|) && AllGivenOk(gs, cl, GivenLengths(g, cl, lens))
    ensures AllGivenOk([g] + gs, cl, lens) && AllLengths([g] + gs, cl, lens) == AllLengths(gs, cl, GivenLengths(g, cl, lens))
    ensures AllGivenBits([g] + gs, cl, lens) == GivenBits(g, cl, |lens|) + AllGivenBits(gs, cl, GivenLengths(g, cl, lens))
  {
    hide GivenBits, GivenLengths, GivenOk;
    assert ([g] + gs)[1..] == gs;
  }

  lemma {:induction false} ParseLengths(s: bits, pos: nat, out: seq<byte>, cl: lengths, lens: lengths, hlit: nat, hdist: nat, final: bool)
    returns (gs: seq<Given>)
    requires |cl| == 19 && Lengths(s, pos, out, cl, lens, hlit, hdist, final).Done?
    ensures AllGivenOk(gs, cl, lens) && |AllLengths(gs, cl, lens)| == hlit + hdist && StartsWith(s, pos, AllGivenBits(gs, cl, lens))
    ensures Lengths(s, pos, out, cl, lens, hlit, hdist, final)
      == Lengths(s, pos + |AllGivenBits(gs, cl, lens)|, out, cl, AllLengths(gs, cl, lens), hlit, hdist, final)
    decreases if pos <= |s| then |s| - pos else 0
  {
    hide *;
    if pos > |s| || |lens| > hlit + hdist {
      LengthsPastEnd(s, pos, out, cl, lens, hlit, hdist, final);
    } else if |lens| == hlit + hdist {
      gs := [];
      NoGivens(cl, lens, s, pos);
    } else {
      var g := ParseGiven(s, pos, out, cl, lens, hlit, hdist, final);
      Inside(s, pos, GivenBits(g, cl, |lens|));
      var more := ParseLengths(s, pos + |GivenBits(g, cl, |lens|)|, out, cl, GivenLengths(g, cl, lens), hlit, hdist, final);
      Join(s, pos, GivenBits(g, cl, |lens|), AllGivenBits(more, cl, GivenLengths(g, cl, lens)));
      MoreGivens(g, more, cl, lens);
      gs := [g] + more;
    }
  }

  lemma {:induction false} AlphabetValue(s: bits, pos: nat, n: nat, i: nat)
    requires n <= 19 && pos + 3 * n <= |s| && i < 19
    ensures Alphabet(s, pos, n)[i] == if Place(i) < n then Field(s, pos + 3 * Place(i), 3) else 0
  {
    if n > 0 {
      hide Field, Order, Place, Alphabet;
      AlphabetValue(s, pos, n - 1, i);
      AlphabetStep(s, pos, n - 1);
      PlaceOf(n - 1);
    } else {
      hide Order, Place;
    }
  }

  lemma {:induction false} ParseAlphabet(s: bits, pos: nat, m: nat, n: nat)
    requires n <= m <= 19 && pos + 3 * m <= |s|
    ensures StartsWith(s, pos, AlphabetBits(Alphabet(s, pos, m), n))
  {
    hide *;
    if n > 0 {
      ParseAlphabet(s, pos, m, n - 1);
      AlphabetValue(s, pos, m, Order(n - 1));
      PlaceOf(n - 1);
      FieldBits(s, pos + 3 * (n - 1), 3);
      AlphabetBitsStep(Alphabet(s, pos, m), n - 1);
      Join(s, pos, AlphabetBits(Alphabet(s, pos, m), n - 1), BitsOf(Field(s, pos + 3 * (n - 1), 3), 3));
    } else {
      NoAlphabetBits(Alphabet(s, pos, m), s, pos);
    }
  }

  lemma AlphabetBitsStep(cl: lengths, n: nat)
    requires |cl| == 19 && n < 19
    ensures AlphabetBits(cl, n + 1) == AlphabetBits(cl, n) + BitsOf(cl[Order(n)], 3)
  {
    hide Order, BitsOf;
  }

  lemma NoAlphabetBits(cl: lengths, s: bits, pos: nat)
    requires |cl| == 19 && pos <= |s|
    ensures StartsWith(s, pos, AlphabetBits(cl, 0))
  {
  }

  // ----- blocks -----

  lemma {:induction false} ParseRaw(s: bits, pos: nat, out: seq<byte>, len: nat, final: bool) returns (data: seq<byte>)
    requires Raw(s, pos, out, len, final).Done? && pos <= |s|
    ensures |data| == len && StartsWith(s, pos, Stream(data))
    decreases len
  {
    hide Raw, Field, BitsOf;
    if len == 0 {
      data := [];
    } else {
      RawStep(s, pos, out, len, final);
      var b := Field(s, pos, 8);
      FieldBits(s, pos, 8);
      var more := ParseRaw(s, pos + 8, out + [b], len - 1, final);
      Join(s, pos, BitsOf(b, 8), Stream(more));
      data := [b] + more;
    }
  }

  lemma ParseStored(s: bits, pos: nat, out: seq<byte>, final: bool) returns (b: Coded)
    requires pos + 3 <= |s| && Stored(s, Align(pos + 3), out, final).Done?
    ensures b.StoredBlock? && Writable(b) && StartsWith(s, pos + 3, StoredBits(b, pos))
  {
    hide Stored, Raw, Field, BitsOf, Pow2, Stream;
    var p := Align(pos + 3);
    StoredCases(s, p, out, final);
    var n := Field(s, p, 16);
    var data := ParseRaw(s, p + 32, out, n, final);
    FieldBits(s, p, 16);
    FieldBits(s, p + 16, 16);
    Pow2Sixteen();
    var pad := s[pos + 3..p];
    b := StoredBlock(pad + Zeros(7 - |pad|), data);
    assert b.pad[..p - (pos + 3)] == pad;
    Join(s, p + 16, BitsOf(0xFFFF - n, 16), Stream(data));
    Join(s, p, BitsOf(n, 16), BitsOf(0xFFFF - n, 16) + Stream(data));
    Join(s, pos + 3, pad, BitsOf(n, 16) + (BitsOf(0xFFFF - n, 16) + Stream(data)));
  }

  lemma Parts(f: nat)
    ensures f == f % 32 + 32 * (f / 32 % 32 + 32 * (f / 1024))
  {
    assert f / 32 / 32 == f / 1024;
  }

  lemma ParseDynamic(s: bits, pos: nat, out: seq<byte>, final: bool) returns (b: Coded)
    requires Dynamic(s, pos, out, final).Done?
    ensures b.DynamicBlock? && Writable(b) && Reaches(b, |out|) && StartsWith(s, pos, DynamicBits(b))
  {
    hide Dynamic, Sized, Lengths, Tokens, Field, StartsWith, BitsOf, Pow2, Kraft, Alphabet, AlphabetBits, AllGivenBits, AllLengths, TokensBits, Usable, AllGivenOk, Reaching, HaveCodes, Order, Place;
    DynamicCases(s, pos, out, final);
    var f := Field(s, pos, 14);
    FieldBits(s, pos, 14);
    var hlit, hdist, hclen := f % 32 + 257, f / 32 % 32 + 1, f / 1024 + 4;
    SizedCases(s, pos + 14, out, f % 32, f / 32 % 32, f / 1024, final);
    var cl, p := Alphabet(s, pos + 14, hclen), pos + 14 + 3 * hclen;
    ParseAlphabet(s, pos + 14, hclen, hclen);
    var gs := ParseLengths(s, p, out, cl, [], hlit, hdist, final);
    var g, lens := AllGivenBits(gs, cl, []), AllLengths(gs, cl, []);
    LengthsEnd(s, p + |g|, out, cl, lens, hlit, hdist, final);
    var ts := ParseTokens(s, p + |g|, out, lens[..hlit], lens[hlit..], final);
    var t := TokensBits(ts, lens[..hlit], lens[hlit..]);
    b := DynamicBlock(hlit, hdist, hclen, cl, gs, ts);
    forall i | hclen <= i < 19
      ensures cl[Order(i)] == 0
    {
      AlphabetValue(s, pos + 14, hclen, Order(i));
      PlaceOf(i);
    }
    Join(s, p, g, t);
    Join(s, pos + 14, AlphabetBits(cl, hclen), g + t);
    Parts(f);
    Join(s, pos, SizesBits(b), AlphabetBits(cl, hclen) + (g + t));
  }

  lemma ParseBlock(s: bits, pos: nat, out: seq<byte>) returns (b: Coded, final: bool)
    requires Block(s, pos, out).Done?
    ensures Writable(b) && Reaches(b, |out|) && StartsWith(s, pos, BlockBits(b, final, pos))
  {
    hide *;
    Short(s, pos, out);
    BlockCases(s, pos, out);
    var f := Field(s, pos, 3);
    FieldBits(s, pos, 3);
    final := f % 2 == 1;
    if f < 2 {
      b := ParseStored(s, pos, out, final);
      StoredParts(b, final, pos);
      Join(s, pos, BitsOf(f, 3), StoredBits(b, pos));
    } else if f < 4 {
      var ts := ParseTokens(s, pos + 3, out, FixedLiteral(), FixedDistance(), final);
      b := FixedBlock(ts);
      FixedParts(b, final, pos, |out|);
      Join(s, pos, BitsOf(f, 3), TokensBits(ts, FixedLiteral(), FixedDistance()));
    } else {
      b := ParseDynamic(s, pos + 3, out, final);
      DynamicParts(b, final, pos);
      Join(s, pos, BitsOf(f, 3), DynamicBits(b));
    }
  }

  lemma Short(s: bits, pos: nat, out: seq<byte>)
    ensures pos + 3 > |s| ==> Block(s, pos, out) == Fail
  {
    hide Stored, Tokens, Dynamic, FixedLiteral, FixedDistance, Field;
  }

  lemma StoredParts(b: Coded, final: bool, pos: nat)
    requires b.StoredBlock? && Writable(b)
    ensures Reaches(b, 0) && forall size: nat :: Reaches(b, size)
    ensures BlockBits(b, final, pos) == BitsOf(if final then 1 else 0, 3) + StoredBits(b, pos)
  {
    hide StoredBits, BitsOf;
  }

  lemma FixedParts(b: Coded, final: bool, pos: nat, size: nat)
    requires b.FixedBlock? && HaveCodes(b.tokens, FixedLiteral(), FixedDistance())
    ensures Writable(b) && (Reaching(b.tokens, size) ==> Reaches(b, size))
    ensures BlockBits(b, final, pos) == BitsOf(if final then 3 else 2, 3) + TokensBits(b.tokens, FixedLiteral(), FixedDistance())
  {
    hide TokensBits, BitsOf, HaveCodes, Reaching, FixedLiteral, FixedDistance;
  }

  lemma DynamicParts(b: Coded, final: bool, pos: nat)
    requires b.DynamicBlock? && Writable(b)
    ensures DynamicOk(b) && BlockBits(b, final, pos) == BitsOf(if final then 5 else 4, 3) + DynamicBits(b)
  {
    hide DynamicBits, BitsOf, DynamicOk;
  }

  // ----- streams -----

  lemma OneMore(b: Coded, bs: seq<Coded>, out: seq<byte>, pos: nat)
    requires Writable(b) && Reaches(b, |out|) && AllWritable(bs) && AllReach(bs, BlockOut(b, out))
    ensures AllWritable([b] + bs) && AllReach([b] + bs, out)
    ensures var e := BlockBits(b, false, pos); StreamBits([b] + bs, pos) == e + StreamBits(bs, pos + |e|)
  {
    hide BlockBits, BlockOut, Writable, Reaches;
    assert ([b] + bs)[1..] == bs;
  }

  lemma LastOne(b: Coded, out: seq<byte>, pos: nat)
    requires Writable(b) && Reaches(b, |out|)
    ensures AllWritable([b]) && AllReach([b], out) && StreamBits([b], pos) == BlockBits(b, true, pos)
  {
    hide BlockBits, BlockOut, Writable, Reaches;
  }

  /** Whatever decodes is an encoding of blocks; by the round trip, of blocks that stand for the output. */
  lemma {:induction false} Parse(s: bits, pos: nat, out: seq<byte>) returns (bs: seq<Coded>)
    requires Block(s, pos, out).Done?
    ensures AllWritable(bs) && AllReach(bs, out) && StartsWith(s, pos, StreamBits(bs, pos))
    decreases if pos <= |s| then |s| - pos else 0
  {
    hide *;
    var b, final := ParseBlock(s, pos, out);
    if final {
      bs := [b];
      LastOne(b, out, pos);
    } else {
      var e := BlockBits(b, false, pos);
      OneBlock(s, pos, out, b, false);
      NextCases(s, pos + |e|, BlockOut(b, out), false);
      Inside(s, pos, e);
      SomeBits(b, false, pos);
      var more := Parse(s, pos + |e|, BlockOut(b, out));
      Join(s, pos, e, StreamBits(more, pos + |e|));
      OneMore(b, more, out, pos);
      bs := [b] + more;
    }
  }

  lemma SomeBits(b: Coded, final: bool, pos: nat)
    requires Writable(b)
    ensures |BlockBits(b, final, pos)| >= 3
  {
    hide StoredBits, DynamicBits, TokensBits, Writable, BitsOf;
  }

  /** bs is an encoding at pos that ends at end and stands for total, given the output so far. */
  ghost predicate Encodes(bs: seq<Coded>, s: bits, pos: nat, out: seq<byte>, total: seq<byte>, end: nat) {
    && AllWritable(bs) && AllReach(bs, out) && StartsWith(s, pos, StreamBits(bs, pos))
    && total == StreamOut(bs, out) && end == pos + |StreamBits(bs, pos)|
  }

  /** The decoder gives an output exactly when the stream starts with an encoding of it. */
  lemma DecodesExactly(s: bits, pos: nat, out: seq<byte>, total: seq<byte>, end: nat)
    ensures Block(s, pos, out) == Done(total, end) <==> exists bs :: Encodes(bs, s, pos, out, total, end)
  {
    hide Block, AllWritable, AllReach, StartsWith, StreamBits, StreamOut;
    if Block(s, pos, out).Done? {
      var bs := Parse(s, pos, out);
      RoundTrip(s, pos, out, bs);
      assert Encodes(bs, s, pos, out, Block(s, pos, out).out, Block(s, pos, out).end);
    }
    forall bs | Encodes(bs, s, pos, out, total, end)
      ensures Block(s, pos, out) == Done(total, end)
    {
      RoundTrip(s, pos, out, bs);
    }
  }

  /** From the middle of a block: tokens up to its end, and then blocks if it is not the last. */
  ghost predicate GoesOn(ts: seq<token>, bs: seq<Coded>, s: bits, pos: nat, out: seq<byte>, lit: lengths, dist: lengths, final: bool, total: seq<byte>, end: nat) {
    && HaveCodes(ts, lit, dist) && Reaching(ts, |out|) && StartsWith(s, pos, TokensBits(ts, lit, dist))
    && var p := pos + |TokensBits(ts, lit, dist)|;
       if final then total == Expand(ts, out) && end == p else Encodes(bs, s, p, Expand(ts, out), total, end)
  }

  /** The same as DecodesExactly from there. */
  lemma TokensExactly(s: bits, pos: nat, out: seq<byte>, lit: lengths, dist: lengths, final: bool, total: seq<byte>, end: nat)
    requires Usable(lit) && Usable(dist)
    ensures Tokens(s, pos, out, lit, dist, final) == Done(total, end)
      <==> exists ts, bs :: GoesOn(ts, bs, s, pos, out, lit, dist, final, total, end)
  {
    hide Tokens, Usable, HaveCodes, Reaching, StartsWith, TokensBits, Expand, Block, Encodes, Next;
    if Tokens(s, pos, out, lit, dist, final) == Done(total, end) {
      var ts := ParseTokens(s, pos, out, lit, dist, final);
      var p := pos + |TokensBits(ts, lit, dist)|;
      TokensRoundTrip(s, pos, out, lit, dist, final, ts);
      NextCases(s, p, Expand(ts, out), final);
      var bs: seq<Coded> := [];
      if !final {
        DecodesExactly(s, p, Expand(ts, out), total, end);
        bs :| Encodes(bs, s, p, Expand(ts, out), total, end);
      }
      assert GoesOn(ts, bs, s, pos, out, lit, dist, final, total, end);
    }
    forall ts, bs | GoesOn(ts, bs, s, pos, out, lit, dist, final, total, end)
      ensures Tokens(s, pos, out, lit, dist, final) == Done(total, end)
    {
      TokensRoundTrip(s, pos, out, lit, dist, final, ts);
      NextCases(s, pos + |TokensBits(ts, lit, dist)|, Expand(ts, out), final);
      if !final {
        DecodesExactly(s, pos + |TokensBits(ts, lit, dist)|, Expand(ts, out), total, end);
      }
    }
  }
}
