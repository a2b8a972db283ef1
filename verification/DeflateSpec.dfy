/** The DEFLATE format (sections 3.2.3 to 3.2.7 of RFC 1951) as a function on the bit stream.

    Every point where the decompressor may pause has its own function, which says what the rest of the
    stream means from there on, given the output so far. */
module DeflateSpec {
  import opened Bits
  import opened Canonical
  import opened Wrappers

  /** What a stream decompresses to, and the bit position after it. */
  datatype Outcome = Fail | Done(out: seq<byte>, end: nat)

  /** The n-bit number at pos, least significant bit first. */
  function Field(s: bits, pos: nat, n: nat): nat
    requires pos + n <= |s|
  {
    NatOf(s[pos..pos + n])
  }

  // ----- prefix codes -----

  predicate StartsWith(s: bits, pos: nat, c: bits) {
    pos + |c| <= |s| && s[pos..pos + |c|] == c
  }

  predicate IsAt(lens: lengths, s: bits, pos: nat, n: nat) {
    n < |lens| && lens[n] > 0 && StartsWith(s, pos, Codeword(lens, n))
  }

  function Search(lens: lengths, s: bits, pos: nat, n: nat): (r: Option<nat>)
    requires n <= |lens|
    ensures r.Some? ==> IsAt(lens, s, pos, r.value)
    ensures r.None? ==> forall m: nat :: n <= m < |lens| ==> !IsAt(lens, s, pos, m)
    decreases |lens| - n
  {
    if n == |lens| then None
    else if IsAt(lens, s, pos, n) then Some(n)
    else Search(lens, s, pos, n + 1)
  }

  /** The symbol whose codeword comes next. */
  function Decode(lens: lengths, s: bits, pos: nat): (r: Option<nat>)
    ensures r.Some? ==> IsAt(lens, s, pos, r.value)
    ensures r.None? ==> forall m: nat :: m < |lens| ==> !IsAt(lens, s, pos, m)
  {
    Search(lens, s, pos, 0)
  }

  lemma DecodeUnique(lens: lengths, s: bits, pos: nat, n: nat)
    requires Kraft(lens) <= FULL && IsAt(lens, s, pos, n)
    ensures Decode(lens, s, pos) == Some(n)
  {
    hide Codeword, Kraft;
    var m := Decode(lens, s, pos).value;
    SamePlace(s, pos, Codeword(lens, m), Codeword(lens, n));
    if m != n {
      PrefixFree(lens, m, n);
      PrefixFree(lens, n, m);
    }
  }

  lemma SamePlace(s: bits, pos: nat, a: bits, b: bits)
    requires StartsWith(s, pos, a) && StartsWith(s, pos, b)
    ensures Prefix(a, b) || Prefix(b, a)
  {
    if |a| <= |b| {
      assert b[..|a|] == s[pos..pos + |b|][..|a|];
    } else {
      assert a[..|b|] == s[pos..pos + |a|][..|b|];
    }
  }

  // ----- the tables of section 3.2.5 -----

  const LENGTH_BASE: seq<nat> := [
    3, 4, 5, 6, 7, 8, 9, 10, 11, 13, 15, 17, 19, 23, 27, 31,
    35, 43, 51, 59, 67, 83, 99, 115, 131, 163, 195, 227, 258]

  const LENGTH_EXTRA: seq<nat> := [
    0, 0, 0, 0, 0, 0, 0, 0, 1, 1, 1, 1, 2, 2, 2, 2,
    3, 3, 3, 3, 4, 4, 4, 4, 5, 5, 5, 5, 0]

  const DISTANCE_BASE: seq<nat> := [
    1, 2, 3, 4, 5, 7, 9, 13, 17, 25, 33, 49, 65, 97, 129, 193,
    257, 385, 513, 769, 1025, 1537, 2049, 3073, 4097, 6145, 8193, 12289, 16385, 24577]

  const DISTANCE_EXTRA: seq<nat> := [
    0, 0, 0, 0, 1, 1, 2, 2, 3, 3, 4, 4, 5, 5, 6, 6,
    7, 7, 8, 8, 9, 9, 10, 10, 11, 11, 12, 12, 13, 13]

  function LengthBase(n: nat): nat
    requires 257 <= n <= 285
  {
    LENGTH_BASE[n - 257]
  }

  function LengthExtra(n: nat): (r: nat)
    requires 257 <= n <= 285
    ensures r <= 5
  {
    LENGTH_EXTRA[n - 257]
  }

  function DistanceBase(k: nat): (r: nat)
    requires k < 30
    ensures 1 <= r
  {
    DISTANCE_BASE[k]
  }

  function DistanceExtra(k: nat): (r: nat)
    requires k < 30
    ensures r <= 13
  {
    DISTANCE_EXTRA[k]
  }

  // ----- the code lengths of section 3.2.6 -----

  function Repeat(v: nat, n: nat): (s: seq<nat>)
    ensures |s| == n && forall i :: 0 <= i < n ==> s[i] == v
  {
    seq(n, i => v)
  }

  function FixedLiteral(): (l: lengths)
    ensures |l| == 288
  {
    Repeat(8, 144) + Repeat(9, 112) + Repeat(7, 24) + Repeat(8, 8)
  }

  function FixedDistance(): (l: lengths)
    ensures |l| == 32
  {
    Repeat(5, 32)
  }

  /** A complete code, or one whose symbols have at most one bit (the unused codeword then being an error). */
  predicate Usable(lens: lengths) {
    Kraft(lens) == FULL || (Kraft(lens) < FULL && forall i :: 0 <= i < |lens| ==> lens[i] <= 1)
  }

  // ----- copying -----

  /** Appends len bytes, each taken dist bytes back. */
  function Extend(out: seq<byte>, dist: nat, len: nat): (r: seq<byte>)
    requires 1 <= dist <= |out|
    ensures |r| == |out| + len
    decreases len
  {
    if len == 0 then out else Extend(out + [out[|out| - dist]], dist, len - 1)
  }

  // ----- the blocks -----

  function Rest(s: bits, pos: nat): nat {
    if pos <= |s| then |s| - pos else 0
  }

  function Align(pos: nat): (r: nat)
    ensures pos <= r < pos + 8 && r % 8 == 0
  {
    (pos + 7) / 8 * 8
  }

  /** A block header and everything after it. */
  function Block(s: bits, pos: nat, out: seq<byte>): Outcome
    decreases Rest(s, pos), 0
  {
    if pos + 3 > |s| then Fail
    else
      var final, kind := s[pos], Field(s, pos + 1, 2);
      if kind == 0 then Stored(s, Align(pos + 3), out, final)
      else if kind == 1 then Tokens(s, pos + 3, out, FixedLiteral(), FixedDistance(), final)
      else if kind == 2 then Dynamic(s, pos + 3, out, final)
      else Fail
  }

  function Next(s: bits, pos: nat, out: seq<byte>, final: bool): Outcome
    decreases Rest(s, pos), 1
  {
    if final then Done(out, pos) else Block(s, pos, out)
  }

  /** LEN and NLEN at a byte boundary. */
  function Stored(s: bits, pos: nat, out: seq<byte>, final: bool): Outcome
    decreases Rest(s, pos), 3
  {
    if pos + 32 > |s| then Fail
    else if Field(s, pos + 16, 16) != 0xFFFF - Field(s, pos, 16) then Fail
    else Raw(s, pos + 32, out, Field(s, pos, 16), final)
  }

  /** len literal bytes. */
  function Raw(s: bits, pos: nat, out: seq<byte>, len: nat, final: bool): Outcome
    decreases Rest(s, pos), 2
  {
    if len == 0 then Next(s, pos, out, final)
    else if pos + 8 > |s| then Fail
    else
      NatOfByte(s[pos..pos + 8]);
      Raw(s, pos + 8, out + [Field(s, pos, 8)], len - 1, final)
  }

  lemma NatOfByte(b: bits)
    requires |b| == 8
    ensures NatOf(b) < 256
  {
    NatOfBound(b);
    assert Pow2(8) == 256;
  }

  /** Literals and copies up to the end of the block. */
  function Tokens(s: bits, pos: nat, out: seq<byte>, lit: lengths, dist: lengths, final: bool): Outcome
    decreases Rest(s, pos), 4
  {
    match Decode(lit, s, pos)
    case None => Fail
    case Some(n) =>
      var p := pos + lit[n];
      if n < 256 then Tokens(s, p, out + [n], lit, dist, final)
      else if n == 256 then Next(s, p, out, final)
      else if n > 285 then Fail
      else
        var extra := LengthExtra(n);
        if p + extra > |s| then Fail
        else Distance(s, p + extra, out, lit, dist, final, LengthBase(n) + Field(s, p, extra))
  }

  /** The distance of a copy of len bytes. */
  function Distance(s: bits, pos: nat, out: seq<byte>, lit: lengths, dist: lengths, final: bool, len: nat): Outcome
    decreases Rest(s, pos), 5
  {
    match Decode(dist, s, pos)
    case None => Fail
    case Some(k) =>
      var p := pos + dist[k];
      if k >= 30 then Fail
      else if p + DistanceExtra(k) > |s| then Fail
      else
        var d := DistanceBase(k) + Field(s, p, DistanceExtra(k));
        if d > |out| then Fail
        else Tokens(s, p + DistanceExtra(k), Extend(out, d, len), lit, dist, final)
  }

  // ----- dynamic code lengths -----

  /** The order of section 3.2.7. */
  const ORDER: seq<nat> := [16, 17, 18, 0, 8, 7, 9, 6, 10, 5, 11, 4, 12, 3, 13, 2, 14, 1, 15]

  function Order(k: nat): (i: nat)
    requires k < 19
    ensures i < 19
  {
    ORDER[k]
  }

  /** Code lengths of the code length alphabet, n of them given at pos, the rest zero. */
  function Alphabet(s: bits, pos: nat, n: nat): (l: lengths)
    requires n <= 19 && pos + 3 * n <= |s|
    ensures |l| == 19 && forall i :: 0 <= i < 19 ==> l[i] <= 7
    decreases n
  {
    hide Field, Order;
    if n == 0 then Repeat(0, 19)
    else
      ThreeBits(s, pos + 3 * (n - 1));
      Alphabet(s, pos, n - 1)[Order(n - 1) := Field(s, pos + 3 * (n - 1), 3)]
  }

  lemma ThreeBits(s: bits, pos: nat)
    requires pos + 3 <= |s|
    ensures Field(s, pos, 3) <= 7
  {
    NatOfBound(s[pos..pos + 3]);
    assert Pow2(3) == 8;
  }

  function Dynamic(s: bits, pos: nat, out: seq<byte>, final: bool): Outcome
    decreases Rest(s, pos), 8
  {
    if pos + 14 > |s| then Fail
    else Sized(s, pos + 14, out, Field(s, pos, 5), Field(s, pos + 5, 5), Field(s, pos + 10, 4), final)
  }

  /** After HLIT, HDIST and HCLEN. */
  function Sized(s: bits, pos: nat, out: seq<byte>, hlit: nat, hdist: nat, hclen: nat, final: bool): Outcome
    decreases Rest(s, pos), 7
  {
    hide Kraft, Alphabet;
    if hlit + 257 > 286 || hdist + 1 > 30 then Fail
    else if hclen + 4 > 19 || pos + 3 * (hclen + 4) > |s| then Fail
    else
      var cl := Alphabet(s, pos, hclen + 4);
      if Kraft(cl) != FULL then Fail
      else Lengths(s, pos + 3 * (hclen + 4), out, cl, [], hlit + 257, hdist + 1, final)
  }

  /** The code lengths of the two alphabets, lens being those already known. */
  function Lengths(s: bits, pos: nat, out: seq<byte>, cl: lengths, lens: lengths, hlit: nat, hdist: nat, final: bool): Outcome
    requires |cl| == 19
    decreases Rest(s, pos), 6
  {
    if |lens| > hlit + hdist then Fail
    else if |lens| == hlit + hdist then
      if Usable(lens[..hlit]) && Usable(lens[hlit..]) then Tokens(s, pos, out, lens[..hlit], lens[hlit..], final) else Fail
    else
      match Decode(cl, s, pos)
      case None => Fail
      case Some(sym) =>
        var p := pos + cl[sym];
        if sym <= 15 then Lengths(s, p, out, cl, lens + [sym], hlit, hdist, final)
        else if sym == 16 then
          if p + 2 > |s| || |lens| == 0 then Fail
          else Lengths(s, p + 2, out, cl, lens + Repeat(lens[|lens| - 1], Field(s, p, 2) + 3), hlit, hdist, final)
        else if sym == 17 then
          if p + 3 > |s| then Fail
          else Lengths(s, p + 3, out, cl, lens + Repeat(0, Field(s, p, 3) + 3), hlit, hdist, final)
        else
          if p + 7 > |s| then Fail
          else Lengths(s, p + 7, out, cl, lens + Repeat(0, Field(s, p, 7) + 11), hlit, hdist, final)
  }

  // ----- running out of input -----

  lemma PastEnd(s: bits, pos: nat, lens: lengths)
    requires pos > |s|
    ensures Decode(lens, s, pos) == None
  {
  }

  /** The shortest block is an empty one with the fixed codes: ten bits. */
  lemma TenBits(s: bits, pos: nat, out: seq<byte>)
    requires |s| < pos + 10
    ensures Block(s, pos, out) == Fail
  {
    if pos + 3 <= |s| && Field(s, pos + 1, 2) == 1 {
      FixedLengths();
      assert Decode(FixedLiteral(), s, pos + 3) == None;
    }
  }

  lemma FixedLengths()
    ensures forall i :: 0 <= i < 288 ==> FixedLiteral()[i] >= 7
  {
  }

  /** A field is made of its low and its high part. */
  lemma FieldSplit(s: bits, pos: nat, a: nat, b: nat)
    requires pos + a + b <= |s|
    ensures Field(s, pos, a + b) == Field(s, pos, a) + Pow2(a) * Field(s, pos + a, b)
    ensures Field(s, pos, a) < Pow2(a) && Field(s, pos + a, b) < Pow2(b)
  {
    assert s[pos..pos + a + b] == s[pos..pos + a] + s[pos + a..pos + a + b];
    NatOfConcat(s[pos..pos + a], s[pos + a..pos + a + b]);
    NatOfBound(s[pos..pos + a]);
    NatOfBound(s[pos + a..pos + a + b]);
  }

  lemma {:induction false} ExtendSplit(out: seq<byte>, dist: nat, a: nat, b: nat)
    requires 1 <= dist <= |out|
    ensures Extend(Extend(out, dist, a), dist, b) == Extend(out, dist, a + b)
    decreases a
  {
    if a > 0 {
      ExtendSplit(out + [out[|out| - dist]], dist, a - 1, b);
    }
  }

  lemma ExtendSnoc(out: seq<byte>, dist: nat, a: nat)
    requires 1 <= dist <= |out|
    ensures var e := Extend(out, dist, a); Extend(out, dist, a + 1) == e + [e[|e| - dist]]
  {
    ExtendSplit(out, dist, a, 1);
    var e := Extend(out, dist, a);
    assert Extend(e, dist, 1) == Extend(e + [e[|e| - dist]], dist, 0);
  }

  lemma {:induction false} ExtendPrefix(out: seq<byte>, dist: nat, len: nat)
    requires 1 <= dist <= |out|
    ensures out <= Extend(out, dist, len)
    decreases len
  {
    if len > 0 {
      ExtendPrefix(out + [out[|out| - dist]], dist, len - 1);
    }
  }

  // ----- one step at a time -----

  lemma BlockCases(s: bits, pos: nat, out: seq<byte>)
    requires pos + 3 <= |s|
    ensures var f := Field(s, pos, 3);
      && f < 8
      && Block(s, pos, out) ==
         if f < 2 then Stored(s, Align(pos + 3), out, f % 2 == 1)
         else if f < 4 then Tokens(s, pos + 3, out, FixedLiteral(), FixedDistance(), f % 2 == 1)
         else if f < 6 then Dynamic(s, pos + 3, out, f % 2 == 1)
         else Fail
  {
    hide Stored, Tokens, Dynamic, FixedLiteral, FixedDistance, Align;
    assert Pow2(1) == 2 && Pow2(2) == 4;
    assert s[pos..pos + 1] == [s[pos]];
    FieldSplit(s, pos, 1, 2);
  }

  lemma RawStep(s: bits, pos: nat, out: seq<byte>, len: nat, final: bool)
    requires len > 0
    ensures pos + 8 > |s| ==> Raw(s, pos, out, len, final) == Fail
    ensures pos + 8 <= |s| ==>
      Field(s, pos, 8) < 256 && Raw(s, pos, out, len, final) == Raw(s, pos + 8, out + [Field(s, pos, 8)], len - 1, final)
  {
    if pos + 8 <= |s| {
      NatOfByte(s[pos..pos + 8]);
    }
  }

  lemma RawEnd(s: bits, pos: nat, out: seq<byte>, final: bool)
    ensures Raw(s, pos, out, 0, final) == Next(s, pos, out, final)
  {
  }

  lemma NextCases(s: bits, pos: nat, out: seq<byte>, final: bool)
    ensures Next(s, pos, out, final) == if final then Done(out, pos) else Block(s, pos, out)
  {
  }

  lemma StoredCases(s: bits, pos: nat, out: seq<byte>, final: bool)
    ensures Stored(s, pos, out, final) ==
      if pos + 32 > |s| then Fail
      else if Field(s, pos + 16, 16) != 0xFFFF - Field(s, pos, 16) then Fail
      else Raw(s, pos + 32, out, Field(s, pos, 16), final)
  {
  }

  lemma ThreeParts(f: nat, a: nat, b: nat, c: nat)
    requires f == a + 32 * (b + 32 * c) && a < 32 && b < 32 && c < 16
    ensures f < 0x4000 && f % 32 == a && f / 32 % 32 == b && f / 1024 == c
  {
  }

  lemma DynamicCases(s: bits, pos: nat, out: seq<byte>, final: bool)
    ensures pos + 14 > |s| ==> Dynamic(s, pos, out, final) == Fail
    ensures pos + 14 <= |s| ==> var f := Field(s, pos, 14);
      f < 0x4000 && Dynamic(s, pos, out, final) == Sized(s, pos + 14, out, f % 32, f / 32 % 32, f / 1024, final)
  {
    if pos + 14 <= |s| {
      assert Pow2(4) == 16 && Pow2(5) == 32;
      hide Sized, Field, Pow2;
      FieldSplit(s, pos, 5, 9);
      FieldSplit(s, pos + 5, 5, 4);
      ThreeParts(Field(s, pos, 14), Field(s, pos, 5), Field(s, pos + 5, 5), Field(s, pos + 10, 4));
    }
  }

  lemma SizedCases(s: bits, pos: nat, out: seq<byte>, hlit: nat, hdist: nat, hclen: nat, final: bool)
    requires hclen <= 15
    ensures hlit > 29 || hdist > 29 || pos + 3 * (hclen + 4) > |s| ==> Sized(s, pos, out, hlit, hdist, hclen, final) == Fail
    ensures hlit <= 29 && hdist <= 29 && pos + 3 * (hclen + 4) <= |s| ==>
      Sized(s, pos, out, hlit, hdist, hclen, final) ==
      if Kraft(Alphabet(s, pos, hclen + 4)) != FULL then Fail
      else Lengths(s, pos + 3 * (hclen + 4), out, Alphabet(s, pos, hclen + 4), [], hlit + 257, hdist + 1, final)
  {
    hide Lengths, Alphabet, Kraft;
  }

  lemma AlphabetStep(s: bits, pos: nat, n: nat)
    requires n < 19 && pos + 3 * (n + 1) <= |s|
    ensures Field(s, pos + 3 * n, 3) <= 7
    ensures Alphabet(s, pos, n + 1) == Alphabet(s, pos, n)[Order(n) := Field(s, pos + 3 * n, 3)]
  {
    hide Field, Order;
    ThreeBits(s, pos + 3 * n);
  }

  lemma LengthsEnd(s: bits, pos: nat, out: seq<byte>, cl: lengths, lens: lengths, hlit: nat, hdist: nat, final: bool)
    requires |cl| == 19 && |lens| == hlit + hdist
    ensures Lengths(s, pos, out, cl, lens, hlit, hdist, final) ==
      if Usable(lens[..hlit]) && Usable(lens[hlit..]) then Tokens(s, pos, out, lens[..hlit], lens[hlit..], final) else Fail
  {
    hide Usable, Tokens;
  }

  lemma LengthsPastEnd(s: bits, pos: nat, out: seq<byte>, cl: lengths, lens: lengths, hlit: nat, hdist: nat, final: bool)
    requires |cl| == 19 && (pos > |s| || |lens| > hlit + hdist)
    ensures Lengths(s, pos, out, cl, lens, hlit, hdist, final) == Fail
  {
    hide Usable;
    if pos > |s| {
      PastEnd(s, pos, cl);
      if |lens| == hlit + hdist {
        PastEnd(s, pos, lens[..hlit]);
      }
    }
  }

  lemma LengthsStep(s: bits, pos: nat, out: seq<byte>, cl: lengths, lens: lengths, hlit: nat, hdist: nat, final: bool)
    requires |cl| == 19 && |lens| < hlit + hdist
    ensures Decode(cl, s, pos) == None ==> Lengths(s, pos, out, cl, lens, hlit, hdist, final) == Fail
    ensures Decode(cl, s, pos).Some? ==>
      var sym := Decode(cl, s, pos).value;
      var p, whole := pos + cl[sym], Lengths(s, pos, out, cl, lens, hlit, hdist, final);
      && (sym <= 15 ==> whole == Lengths(s, p, out, cl, lens + [sym], hlit, hdist, final))
      && (sym == 16 && (p + 2 > |s| || |lens| == 0) ==> whole == Fail)
      && (sym == 16 && p + 2 <= |s| && |lens| > 0 ==>
            whole == Lengths(s, p + 2, out, cl, lens + Repeat(lens[|lens| - 1], Field(s, p, 2) + 3), hlit, hdist, final))
      && (sym == 17 && p + 3 > |s| ==> whole == Fail)
      && (sym == 17 && p + 3 <= |s| ==>
            whole == Lengths(s, p + 3, out, cl, lens + Repeat(0, Field(s, p, 3) + 3), hlit, hdist, final))
      && (sym == 18 && p + 7 > |s| ==> whole == Fail)
      && (sym == 18 && p + 7 <= |s| ==>
            whole == Lengths(s, p + 7, out, cl, lens + Repeat(0, Field(s, p, 7) + 11), hlit, hdist, final))
  {
    hide Decode, Codeword, Usable, Tokens, Field;
  }

  lemma TokensStep(s: bits, pos: nat, out: seq<byte>, lit: lengths, dist: lengths, final: bool)
    ensures Decode(lit, s, pos) == None ==> Tokens(s, pos, out, lit, dist, final) == Fail
    ensures Decode(lit, s, pos).Some? ==>
      var n := Decode(lit, s, pos).value;
      var p := pos + lit[n];
      && (n < 256 ==> Tokens(s, pos, out, lit, dist, final) == Tokens(s, p, out + [n], lit, dist, final))
      && (n == 256 ==> Tokens(s, pos, out, lit, dist, final) == Next(s, p, out, final))
      && (n > 285 ==> Tokens(s, pos, out, lit, dist, final) == Fail)
      && (257 <= n <= 285 ==>
            if p + LengthExtra(n) > |s| then Tokens(s, pos, out, lit, dist, final) == Fail
            else Tokens(s, pos, out, lit, dist, final) == Distance(s, p + LengthExtra(n), out, lit, dist, final,
                LengthBase(n) + Field(s, p, LengthExtra(n))))
  {
    hide Decode, Codeword, Next, Distance, Field, LengthBase, LengthExtra;
  }

  lemma DistanceStep(s: bits, pos: nat, out: seq<byte>, lit: lengths, dist: lengths, final: bool, len: nat)
    ensures Decode(dist, s, pos) == None ==> Distance(s, pos, out, lit, dist, final, len) == Fail
    ensures Decode(dist, s, pos).Some? ==>
      var k := Decode(dist, s, pos).value;
      var p := pos + dist[k];
      && (k >= 30 ==> Distance(s, pos, out, lit, dist, final, len) == Fail)
      && (k < 30 && p + DistanceExtra(k) > |s| ==> Distance(s, pos, out, lit, dist, final, len) == Fail)
      && (k < 30 && p + DistanceExtra(k) <= |s| ==>
            var d := DistanceBase(k) + Field(s, p, DistanceExtra(k));
            Distance(s, pos, out, lit, dist, final, len) ==
              if d > |out| then Fail else Tokens(s, p + DistanceExtra(k), Extend(out, d, len), lit, dist, final))
  {
    hide Decode, Codeword, Tokens, Extend, Field, DistanceBase, DistanceExtra;
  }
}
