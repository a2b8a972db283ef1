/** Laws of the DEFLATE meaning functions that relate runs with different outputs so far. */
module DeflateLaws {
  import opened Bits
  import opened Canonical
  import opened DeflateSpec

  /** a and b are outcomes of the same stream for outputs so far of lengths la and lb: when both succeed
      they end at the same bit and append equally many bytes. */
  predicate Parallel(a: Outcome, la: nat, b: Outcome, lb: nat) {
    a.Done? && b.Done? ==> a.end == b.end && |a.out| - la == |b.out| - lb
  }

  /** A success extends the output so far, and does not read past the end. */
  predicate Extends(a: Outcome, out: seq<byte>) {
    a.Done? ==> out <= a.out
  }

  lemma {:induction false} BlockParallel(s: bits, pos: nat, o: seq<byte>, p: seq<byte>)
    ensures Parallel(Block(s, pos, o), |o|, Block(s, pos, p), |p|)
    ensures Extends(Block(s, pos, o), o)
    decreases Rest(s, pos), 0
  {
    if pos + 3 <= |s| {
      hide Stored, Tokens, Dynamic, FixedLiteral, FixedDistance, Field;
      var final, kind := s[pos], Field(s, pos + 1, 2);
      if kind == 0 {
        StoredParallel(s, Align(pos + 3), o, p, final);
      } else if kind == 1 {
        TokensParallel(s, pos + 3, o, p, FixedLiteral(), FixedDistance(), final);
      } else if kind == 2 {
        DynamicParallel(s, pos + 3, o, p, final);
      }
    }
  }

  lemma {:induction false} NextParallel(s: bits, pos: nat, o: seq<byte>, p: seq<byte>, final: bool)
    ensures Parallel(Next(s, pos, o, final), |o|, Next(s, pos, p, final), |p|)
    ensures Extends(Next(s, pos, o, final), o)
    decreases Rest(s, pos), 1
  {
    hide Block;
    if !final {
      BlockParallel(s, pos, o, p);
    }
  }

  lemma {:induction false} StoredParallel(s: bits, pos: nat, o: seq<byte>, p: seq<byte>, final: bool)
    ensures Parallel(Stored(s, pos, o, final), |o|, Stored(s, pos, p, final), |p|)
    ensures Extends(Stored(s, pos, o, final), o)
    decreases Rest(s, pos), 3
  {
    hide Stored, Raw, Field;
    StoredCases(s, pos, o, final);
    StoredCases(s, pos, p, final);
    if pos + 32 <= |s| {
      RawParallel(s, pos + 32, o, p, Field(s, pos, 16), final);
    }
  }

  lemma {:induction false} RawParallel(s: bits, pos: nat, o: seq<byte>, p: seq<byte>, len: nat, final: bool)
    ensures Parallel(Raw(s, pos, o, len, final), |o|, Raw(s, pos, p, len, final), |p|)
    ensures Extends(Raw(s, pos, o, len, final), o)
    decreases Rest(s, pos), 2
  {
    hide Raw, Next, Field;
    if len == 0 {
      RawEnd(s, pos, o, final);
      RawEnd(s, pos, p, final);
      NextParallel(s, pos, o, p, final);
    } else {
      RawStep(s, pos, o, len, final);
      RawStep(s, pos, p, len, final);
      if pos + 8 <= |s| {
        var b := Field(s, pos, 8);
        RawParallel(s, pos + 8, o + [b], p + [b], len - 1, final);
      }
    }
  }

  lemma {:induction false} TokensParallel(s: bits, pos: nat, o: seq<byte>, p: seq<byte>, lit: lengths, dist: lengths, final: bool)
    ensures Parallel(Tokens(s, pos, o, lit, dist, final), |o|, Tokens(s, pos, p, lit, dist, final), |p|)
    ensures Extends(Tokens(s, pos, o, lit, dist, final), o)
    decreases Rest(s, pos), 4
  {
    var d := Decode(lit, s, pos);
    hide Tokens, Next, Distance, Decode, LengthBase, LengthExtra, Field;
    TokensStep(s, pos, o, lit, dist, final);
    TokensStep(s, pos, p, lit, dist, final);
    if d.Some? {
      var n := d.value;
      var q := pos + lit[n];
      if n < 256 {
        TokensParallel(s, q, o + [n], p + [n], lit, dist, final);
      } else if n == 256 {
        NextParallel(s, q, o, p, final);
      } else if n <= 285 && q + LengthExtra(n) <= |s| {
        DistanceParallel(s, q + LengthExtra(n), o, p, lit, dist, final, LengthBase(n) + Field(s, q, LengthExtra(n)));
      }
    }
  }

  lemma {:induction false} DistanceParallel(s: bits, pos: nat, o: seq<byte>, p: seq<byte>, lit: lengths, dist: lengths, final: bool, len: nat)
    ensures Parallel(Distance(s, pos, o, lit, dist, final, len), |o|, Distance(s, pos, p, lit, dist, final, len), |p|)
    ensures Extends(Distance(s, pos, o, lit, dist, final, len), o)
    decreases Rest(s, pos), 5
  {
    var d := Decode(dist, s, pos);
    hide Tokens, Distance, Decode, DistanceBase, DistanceExtra, Field, Extend;
    DistanceStep(s, pos, o, lit, dist, final, len);
    DistanceStep(s, pos, p, lit, dist, final, len);
    if d.Some? && d.value < 30 {
      var k := d.value;
      var q := pos + dist[k];
      if q + DistanceExtra(k) <= |s| {
        var b := DistanceBase(k) + Field(s, q, DistanceExtra(k));
        if b <= |o| && b <= |p| {
          TokensParallel(s, q + DistanceExtra(k), Extend(o, b, len), Extend(p, b, len), lit, dist, final);
          ExtendPrefix(o, b, len);
        } else if b <= |o| {
          TokensParallel(s, q + DistanceExtra(k), Extend(o, b, len), [], lit, dist, final);
          ExtendPrefix(o, b, len);
        }
      }
    }
  }

  lemma {:induction false} DynamicParallel(s: bits, pos: nat, o: seq<byte>, p: seq<byte>, final: bool)
    ensures Parallel(Dynamic(s, pos, o, final), |o|, Dynamic(s, pos, p, final), |p|)
    ensures Extends(Dynamic(s, pos, o, final), o)
    decreases Rest(s, pos), 8
  {
    hide Dynamic, Sized, Field;
    DynamicCases(s, pos, o, final);
    DynamicCases(s, pos, p, final);
    if pos + 14 <= |s| {
      var f := Field(s, pos, 14);
      SizedParallel(s, pos + 14, o, p, f % 32, f / 32 % 32, f / 1024, final);
    }
  }

  lemma {:induction false} SizedParallel(s: bits, pos: nat, o: seq<byte>, p: seq<byte>, hlit: nat, hdist: nat, hclen: nat, final: bool)
    requires hclen <= 15
    ensures Parallel(Sized(s, pos, o, hlit, hdist, hclen, final), |o|, Sized(s, pos, p, hlit, hdist, hclen, final), |p|)
    ensures Extends(Sized(s, pos, o, hlit, hdist, hclen, final), o)
    decreases Rest(s, pos), 7
  {
    hide Sized, Lengths, Alphabet, Kraft;
    SizedCases(s, pos, o, hlit, hdist, hclen, final);
    SizedCases(s, pos, p, hlit, hdist, hclen, final);
    if pos + 3 * (hclen + 4) <= |s| {
      LengthsParallel(s, pos + 3 * (hclen + 4), o, p, Alphabet(s, pos, hclen + 4), [], hlit + 257, hdist + 1, final);
    }
  }

  lemma {:induction false} LengthsParallel(s: bits, pos: nat, o: seq<byte>, p: seq<byte>, cl: lengths, lens: lengths, hlit: nat, hdist: nat, final: bool)
    requires |cl| == 19
    ensures Parallel(Lengths(s, pos, o, cl, lens, hlit, hdist, final), |o|, Lengths(s, pos, p, cl, lens, hlit, hdist, final), |p|)
    ensures Extends(Lengths(s, pos, o, cl, lens, hlit, hdist, final), o)
    decreases Rest(s, pos), 6
  {
    var d := Decode(cl, s, pos);
    hide Lengths, Tokens, Decode, Usable, Field;
    if |lens| > hlit + hdist {
      LengthsPastEnd(s, pos, o, cl, lens, hlit, hdist, final);
    } else if |lens| == hlit + hdist {
      LengthsEnd(s, pos, o, cl, lens, hlit, hdist, final);
      LengthsEnd(s, pos, p, cl, lens, hlit, hdist, final);
      TokensParallel(s, pos, o, p, lens[..hlit], lens[hlit..], final);
    } else {
      LengthsStep(s, pos, o, cl, lens, hlit, hdist, final);
      LengthsStep(s, pos, p, cl, lens, hlit, hdist, final);
      if d.Some? {
        var sym := d.value;
        var q := pos + cl[sym];
        if sym <= 15 {
          LengthsParallel(s, q, o, p, cl, lens + [sym], hlit, hdist, final);
        } else if sym == 16 {
          if q + 2 <= |s| && |lens| > 0 {
            LengthsParallel(s, q + 2, o, p, cl, lens + Repeat(lens[|lens| - 1], Field(s, q, 2) + 3), hlit, hdist, final);
          }
        } else if sym == 17 {
          if q + 3 <= |s| {
            LengthsParallel(s, q + 3, o, p, cl, lens + Repeat(0, Field(s, q, 3) + 3), hlit, hdist, final);
          }
        } else if q + 7 <= |s| {
          LengthsParallel(s, q + 7, o, p, cl, lens + Repeat(0, Field(s, q, 7) + 11), hlit, hdist, final);
        }
      }
    }
  }
}
