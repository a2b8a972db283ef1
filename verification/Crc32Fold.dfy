/** The carry-less-multiply implementation of arlib/crc32.cpp (crc32_pclmul) and its compile-time constants. */
module Crc32Fold {
  import opened Bits
  import opened Gf2
  import opened Crc32

  // ----- compile-time constants -----

  lemma UpBody(p: modulus, n: int, c: word)
    requires c == Pow(p, n, Unit())
    ensures Xor(c[1..] + [false], Mask(c[0], p)) == Pow(p, n + 1, Unit())
  {
    hide *;
    PowUp(p, n, Unit());
    MulXBody(p, c);
  }

  lemma DownBody(p: modulus, n: int, c: word)
    requires c == Pow(p, n, Unit())
    ensures Xor([false] + c[..31], Mask(c[31], [true] + p[..31])) == Pow(p, n - 1, Unit())
  {
    hide *;
    PowDown(p, n, Unit());
    MulXBody(p, c);
  }

  /** poly_exp: x^31 times x^dist, as a register. */
  method PolyExp(p: modulus, dist: int) returns (ret: word)
    ensures ret == Pow(p, dist + 31, Unit())
  {
    hide *;
    var d := dist;
    ret := [true] + Zeros(31);
    PowUnit(p);
    while d > 0
      invariant 0 <= d <= dist || d == dist < 0
      invariant ret == Pow(p, dist - d + 31, Unit())
    {
      UpBody(p, dist - d + 31, ret);
      ret := Xor(ret[1..] + [false], Mask(ret[0], p));
      d := d - 1;
    }
    while d < 0
      invariant d <= 0
      invariant ret == Pow(p, dist - d + 31, Unit())
    {
      DownBody(p, dist - d + 31, ret);
      ret := Xor([false] + ret[..31], Mask(ret[31], [true] + p[..31]));
      d := d + 1;
    }
  }

  /** The 33-bit polynomial itself, as a 64-bit lane: uint64_t(POLY)<<1 | 1. */
  function Monic(p: modulus): bits {
    [true] + p + Zeros(31)
  }

  lemma BarrettStep(p: modulus, m: bits, tmp: word)
    requires |m| >= 1
    requires Clmul(m, [true] + p) == [true] + Zeros(|m| - 1) + tmp + [false]
    ensures Clmul(m + [tmp[0]], [true] + p) == [true] + Zeros(|m|) + MulX(p, tmp) + [false]
  {
    hide Clmul;
    var b, n := tmp[0], |m|;
    ClmulSnoc(m, b, [true] + p);
    var low := Xor(tmp + [false], Mask(b, [true] + p));
    assert low == [false] + MulX(p, tmp);
    var head := [true] + Zeros(n - 1);
    var l := [true] + Zeros(n - 1) + tmp + [false] + [false];
    var r := Zeros(n) + Mask(b, [true] + p) + [false];
    assert l == head + ((tmp + [false]) + [false]);
    assert r == Zeros(n) + (Mask(b, [true] + p) + [false]);
    XorConcat(head, (tmp + [false]) + [false], Zeros(n), Mask(b, [true] + p) + [false]);
    XorConcat(tmp + [false], [false], Mask(b, [true] + p), [false]);
    XorZero(head);
    assert Xor([false], [false]) == [false];
    assert Xor(l, r) == head + ([false] + MulX(p, tmp) + [false]);
    assert head + ([false] + MulX(p, tmp) + [false]) == [true] + Zeros(n) + MulX(p, tmp) + [false];
  }

  lemma BarrettStart(p: modulus)
    ensures Clmul([true], [true] + p) == [true] + p + [false]
  {
    ClmulCons(true, [], [true] + p);
    assert [true] + [] == [true];
    assert [true] + p + Zeros(1) == [true] + p + [false];
    assert [false] + Clmul([], [true] + p) == Zeros(34);
  }

  lemma MulXBody(p: modulus, c: word)
    ensures MulX(p, c) == Xor(c[1..] + [false], Mask(c[0], p))
    ensures DivX(p, c) == Xor([false] + c[..31], Mask(c[31], [true] + p[..31]))
  {
  }

  /** poly_barrett: the inverse of the polynomial as a power series, to 33 terms. */
  method PolyBarrett(p: modulus) returns (m: bits)
    ensures |m| == 64 && m[33..] == Zeros(31)
    ensures Clmul(m[..33], [true] + p)[..33] == [true] + Zeros(32)
  {
    hide Clmul, MulX;
    var tmp: word := p;
    var ret: bits := [];
    BarrettStart(p);
    assert [true] + ret == [true] && [true] + Zeros(0) + p + [false] == [true] + p + [false];
    var i := 0;
    while i < 32
      invariant 0 <= i <= 32 && |ret| == i
      invariant Clmul([true] + ret, [true] + p) == [true] + Zeros(i) + tmp + [false]
    {
      BarrettStep(p, [true] + ret, tmp);
      assert [true] + ret + [tmp[0]] == [true] + (ret + [tmp[0]]);
      ret := ret + [tmp[0]];
      MulXBody(p, tmp);
      tmp := Xor(tmp[1..] + [false], Mask(tmp[0], p));
      i := i + 1;
    }
    m := [true] + ret + Zeros(31);
    assert m[..33] == [true] + ret;
  }

  // ----- folding -----

  /** A multiplier for DoFold: poly_exp(d) in the low lane, poly_exp(d - 64) in the high lane. */
  ghost predicate FoldsBy(p: modulus, amt: bits, d: int) {
    && |amt| == 128
    && amt[..64] == Pow(p, d + 31, Unit()) + Zeros(32)
    && amt[64..] == Pow(p, d - 33, Unit()) + Zeros(32)
  }

  method FoldAmount(p: modulus, d: int) returns (amt: bits)
    ensures FoldsBy(p, amt, d)
  {
    hide Pow;
    var lo := PolyExp(p, d);
    var hi := PolyExp(p, d - 64);
    amt := lo + Zeros(32) + hi + Zeros(32);
  }

  /** do_fold */
  function DoFold(state: vector, amt: bits): vector
    requires |amt| == 128
  {
    Xor(Clmul(state[..64], amt[..64]), Clmul(state[64..], amt[64..]))
  }

  /** A lane times the constant for d multiplies the residue by x^(64 + d). */
  lemma LaneResidue(p: modulus, lane: bits, k: bits, d: int)
    requires k == Pow(p, d + 31, Unit()) + Zeros(32)
    ensures Residue(p, Clmul(lane, k)) == Pow(p, d + 64, Residue(p, lane))
  {
    hide Pow, Residue, Clmul, MulX, DivX;
    var w := Pow(p, d + 31, Unit());
    ResidueWord(p, w);
    ResidueShift(p, w, 32);
    PowAdd(p, 32, d + 31, Unit());
    ResidueClmul(p, lane, k, d + 63);
  }

  /** Folding by d multiplies the residue by x^d. */
  lemma FoldResidue(p: modulus, state: vector, amt: bits, d: int)
    requires FoldsBy(p, amt, d)
    ensures Residue(p, DoFold(state, amt)) == Pow(p, d, Residue(p, state))
  {
    hide Pow, Residue, Clmul, MulX, DivX;
    var lo, hi := state[..64], state[64..];
    LaneResidue(p, lo, amt[..64], d);
    LaneResidue(p, hi, amt[64..], d - 64);
    ResidueXor(p, Clmul(lo, amt[..64]), Clmul(hi, amt[64..]));
    assert state == lo + hi;
    ResidueConcat(p, lo, hi);
    PowXor(p, d, Pow(p, 64, Residue(p, lo)), Residue(p, hi));
    PowAdd(p, d, 64, Residue(p, lo));
  }

  /** The residue of the message still to be read, rest, with the register s overlaid on its start. */
  function Total(p: modulus, s: bits, rest: bits): word {
    Xor(Pow(p, |rest| - |s|, Residue(p, s)), Residue(p, rest))
  }

  /** Overlaying the next block and multiplying by x^|block| is a move past the block. */
  lemma Absorb(p: modulus, s: bits, s': bits, block: bits, rest: bits)
    requires |s| == |s'| && |block| <= |s|
    requires Residue(p, s') == Pow(p, |block|, Residue(p, Xor(s, block + Zeros(|s| - |block|))))
    ensures Total(p, s', rest) == Total(p, s, block + rest)
  {
    hide Pow, Residue, MulX, DivX;
    var m, k, n := |s|, |block|, |rest|;
    var rs, rb := Residue(p, s), Residue(p, block);
    ResidueXor(p, s, block + Zeros(m - k));
    ResidueShift(p, block, m - k);
    PowXor(p, k, rs, Pow(p, m - k, rb));
    PowAdd(p, k, m - k, rb);
    PowXor(p, n - m, Pow(p, k, rs), Pow(p, m, rb));
    PowAdd(p, n - m, k, rs);
    PowAdd(p, n - m, m, rb);
    ResidueConcat(p, block, rest);
    XorAssoc(Pow(p, n - m + k, rs), Pow(p, n, rb), Residue(p, rest));
  }

  lemma TotalPad(p: modulus, s: bits, n: nat, rest: bits)
    ensures Total(p, s + Zeros(n), rest) == Total(p, s, rest)
  {
    hide Pow, Residue;
    ResidueShift(p, s, n);
    PowAdd(p, |rest| - |s| - n, n, Residue(p, s));
  }

  /** Folding 512 bits held in four registers, each by the same amount. */
  lemma Residue4(p: modulus, s0: vector, s1: vector, s2: vector, s3: vector)
    ensures Residue(p, s0 + s1 + s2 + s3)
         == Xor(Xor(Pow(p, 384, Residue(p, s0)), Pow(p, 256, Residue(p, s1))),
                Xor(Pow(p, 128, Residue(p, s2)), Residue(p, s3)))
  {
    hide Pow, Residue, MulX, DivX;
    var r0, r1, r2, r3 := Residue(p, s0), Residue(p, s1), Residue(p, s2), Residue(p, s3);
    ResidueConcat(p, s0, s1);
    ResidueConcat(p, s0 + s1, s2);
    ResidueConcat(p, s0 + s1 + s2, s3);
    PowXor(p, 128, Pow(p, 128, r0), r1);
    PowXor(p, 128, Xor(Pow(p, 128, Pow(p, 128, r0)), Pow(p, 128, r1)), r2);
    PowXor(p, 128, Pow(p, 128, Pow(p, 128, r0)), Pow(p, 128, r1));
    PowAdd(p, 128, 128, r0);
    PowAdd(p, 128, 256, r0);
    PowAdd(p, 128, 128, r1);
    XorAssoc(Xor(Pow(p, 384, r0), Pow(p, 256, r1)), Pow(p, 128, r2), r3);
  }

  lemma Fold4(p: modulus, s0: vector, s1: vector, s2: vector, s3: vector,
              t0: vector, t1: vector, t2: vector, t3: vector)
    requires Residue(p, t0) == Pow(p, 512, Residue(p, s0)) && Residue(p, t1) == Pow(p, 512, Residue(p, s1))
    requires Residue(p, t2) == Pow(p, 512, Residue(p, s2)) && Residue(p, t3) == Pow(p, 512, Residue(p, s3))
    ensures Residue(p, t0 + t1 + t2 + t3) == Pow(p, 512, Residue(p, s0 + s1 + s2 + s3))
  {
    hide Pow, Residue, MulX, DivX;
    var r0, r1, r2, r3 := Residue(p, s0), Residue(p, s1), Residue(p, s2), Residue(p, s3);
    Residue4(p, s0, s1, s2, s3);
    Residue4(p, t0, t1, t2, t3);
    PowXor(p, 512, Xor(Pow(p, 384, r0), Pow(p, 256, r1)), Xor(Pow(p, 128, r2), r3));
    PowXor(p, 512, Pow(p, 384, r0), Pow(p, 256, r1));
    PowXor(p, 512, Pow(p, 128, r2), r3);
    PowAdd(p, 512, 384, r0);
    PowAdd(p, 384, 512, r0);
    PowAdd(p, 512, 256, r1);
    PowAdd(p, 256, 512, r1);
    PowAdd(p, 512, 128, r2);
    PowAdd(p, 128, 512, r2);
  }

  /** Joining the four registers after three of them took their last block. */
  lemma Join4(p: modulus, s0: vector, s1: vector, s2: vector, s3: vector,
              t0: vector, t1: vector, t2: vector)
    requires Residue(p, t0) == Pow(p, 384, Residue(p, s0))
    requires Residue(p, t1) == Pow(p, 256, Residue(p, s1))
    requires Residue(p, t2) == Pow(p, 128, Residue(p, s2))
    ensures Residue(p, Xor(Xor(t0, t1), Xor(t2, s3))) == Residue(p, s0 + s1 + s2 + s3)
  {
    hide Pow, Residue, MulX, DivX;
    Residue4(p, s0, s1, s2, s3);
    ResidueXor(p, Xor(t0, t1), Xor(t2, s3));
    ResidueXor(p, t0, t1);
    ResidueXor(p, t2, s3);
  }

  method FourLanes(p: modulus, data: seq<byte>, state: vector) returns (out: vector, pos: nat)
    requires |data| >= 80
    ensures pos + 16 <= |data|
    ensures Total(p, out, Stream(data[pos..])) == Total(p, state, Stream(data))
  {
    hide Pow, Residue, MulX, DivX, Total, DoFold, Stream;
    var fold512 := FoldAmount(p, 512);
    var fold384 := FoldAmount(p, 384);
    var fold256 := FoldAmount(p, 256);
    var fold128 := FoldAmount(p, 128);
    var s0: vector, s1: vector, s2: vector, s3: vector := state, Zeros(128), Zeros(128), Zeros(128);
    pos := 0;
    assert data[0..] == data;
    TotalPad(p, state, 384, Stream(data));
    assert state + Zeros(384) == s0 + s1 + s2 + s3;
    while |data| - pos >= 64 + 48 + 16
      invariant pos % 16 == 0 && |data| - pos >= 64
      invariant Total(p, s0 + s1 + s2 + s3, Stream(data[pos..])) == Total(p, state, Stream(data))
    {
      var b0, b1, b2, b3 := Load16(data, pos), Load16(data, pos + 16), Load16(data, pos + 32), Load16(data, pos + 48);
      var x0, x1, x2, x3 := Xor(s0, b0), Xor(s1, b1), Xor(s2, b2), Xor(s3, b3);
      ghost var s := s0 + s1 + s2 + s3;
      FoldResidue(p, x0, fold512, 512);
      FoldResidue(p, x1, fold512, 512);
      FoldResidue(p, x2, fold512, 512);
      FoldResidue(p, x3, fold512, 512);
      s0, s1, s2, s3 := DoFold(x0, fold512), DoFold(x1, fold512), DoFold(x2, fold512), DoFold(x3, fold512);
      Fold4(p, x0, x1, x2, x3, s0, s1, s2, s3);
      assert x0 + x1 + x2 + x3 == Xor(s, (b0 + b1 + b2 + b3) + Zeros(0));
      Absorb(p, s, s0 + s1 + s2 + s3, b0 + b1 + b2 + b3, Stream(data[pos + 64..]));
      Split4(data, pos);
      pos := pos + 64;
    }
    var b0, b1, b2 := Load16(data, pos), Load16(data, pos + 16), Load16(data, pos + 32);
    var x0, x1, x2 := Xor(s0, b0), Xor(s1, b1), Xor(s2, b2);
    FoldResidue(p, x0, fold384, 384);
    FoldResidue(p, x1, fold256, 256);
    FoldResidue(p, x2, fold128, 128);
    var t0, t1, t2 := DoFold(x0, fold384), DoFold(x1, fold256), DoFold(x2, fold128);
    out := Xor(Xor(t0, t1), Xor(t2, s3));
    Join4(p, x0, x1, x2, s3, t0, t1, t2);
    assert x0 + x1 + x2 + s3 == Xor(s0 + s1 + s2 + s3, (b0 + b1 + b2) + Zeros(128));
    Shorten(p, s0 + s1 + s2 + s3, out, b0 + b1 + b2, Stream(data[pos + 48..]));
    Split3(data, pos);
    pos := pos + 48;
  }

  function Load16(data: seq<byte>, pos: nat): vector
    requires pos + 16 <= |data|
  {
    Stream(data[pos..pos + 16])
  }

  lemma SplitAt(data: seq<byte>, pos: nat, n: nat)
    requires pos + n <= |data|
    ensures Stream(data[pos..]) == Stream(data[pos..pos + n]) + Stream(data[pos + n..])
  {
    assert data[pos..] == data[pos..pos + n] + data[pos + n..];
    StreamConcat(data[pos..pos + n], data[pos + n..]);
  }

  lemma Split3(data: seq<byte>, pos: nat)
    requires pos + 48 <= |data|
    ensures Stream(data[pos..]) == Load16(data, pos) + Load16(data, pos + 16) + Load16(data, pos + 32) + Stream(data[pos + 48..])
  {
    SplitAt(data, pos, 16);
    SplitAt(data, pos + 16, 16);
    SplitAt(data, pos + 32, 16);
  }

  lemma Split4(data: seq<byte>, pos: nat)
    requires pos + 64 <= |data|
    ensures Stream(data[pos..])
         == (Load16(data, pos) + Load16(data, pos + 16) + Load16(data, pos + 32) + Load16(data, pos + 48)) + Stream(data[pos + 64..])
  {
    Split3(data, pos);
    SplitAt(data, pos + 48, 16);
  }

  /** A register with the same residue but 384 bits shorter stands 384 bits further into the message. */
  lemma Shorten(p: modulus, s: bits, s': bits, block: bits, rest: bits)
    requires |s| == |s'| + |block|
    requires Residue(p, s') == Residue(p, Xor(s, block + Zeros(|s'|)))
    ensures Total(p, s', rest) == Total(p, s, block + rest)
  {
    hide Pow, Residue, MulX, DivX;
    var n := |rest| - |s'|;
    var rs, rb := Residue(p, s), Residue(p, block);
    ResidueXor(p, s, block + Zeros(|s'|));
    ResidueShift(p, block, |s'|);
    PowXor(p, n, rs, Pow(p, |s'|, rb));
    PowAdd(p, n, |s'|, rb);
    ResidueConcat(p, block, rest);
    XorAssoc(Pow(p, n, rs), Pow(p, |rest|, rb), Residue(p, rest));
  }

  /** One fold of the block of n bytes at pos into the register. */
  method FoldBlock(p: modulus, data: seq<byte>, state: vector, pos: nat, n: nat) returns (out: vector)
    requires n <= 16 && pos + n <= |data|
    ensures Total(p, out, Stream(data[pos + n..])) == Total(p, state, Stream(data[pos..]))
  {
    hide Pow, Residue, MulX, DivX, Total, DoFold, Stream;
    var amt := FoldAmount(p, 8 * n);
    var block := Stream(data[pos..pos + n]);
    var x := Xor(state, block + Zeros(128 - 8 * n));
    out := DoFold(x, amt);
    FoldResidue(p, x, amt, 8 * n);
    Absorb(p, state, out, block, Stream(data[pos + n..]));
    SplitAt(data, pos, n);
  }

  // ----- reduction to 32 bits -----

  /** Folds 128 bits into 64. */
  method Narrow(p: modulus, state: vector) returns (t: bits)
    ensures |t| == 64
    ensures Residue(p, t) == Pow(p, 32, Residue(p, state))
  {
    hide Pow, Residue, MulX, DivX, Clmul;
    var k64 := PolyExp(p, 64);
    var k32 := PolyExp(p, 32);
    var lo, hi := state[..64], state[64..];
    var s1 := Xor(hi + Zeros(64), Clmul(lo, k64 + Zeros(32)));
    Narrow64(p, state, k64, s1);
    var head, tail := s1[..32], s1[32..];
    var s2 := Xor(tail + Zeros(32), Clmul(head + Zeros(32), k32 + Zeros(32)));
    Narrow32(p, s1, k32, s2);
    t := s2[..64];
    assert s2 == t + Zeros(64);
    ResidueShift(p, t, 64);
    PowAdd(p, 32, 64, Residue(p, state));
    PowAdd(p, -64, 96, Residue(p, state));
    PowAdd(p, -64, 64, Residue(p, t));
    PowSmall(p, Residue(p, t));
  }

  lemma Narrow64(p: modulus, s: vector, k: word, s1: bits)
    requires k == Pow(p, 95, Unit())
    requires s1 == Xor(s[64..] + Zeros(64), Clmul(s[..64], k + Zeros(32)))
    ensures |s1| == 128 && s1[96..] == Zeros(32)
    ensures Residue(p, s1) == Pow(p, 64, Residue(p, s))
  {
    hide Pow, Residue, MulX, DivX, Clmul;
    var lo, hi := s[..64], s[64..];
    LaneResidue(p, lo, k + Zeros(32), 64);
    ClmulPadRight(lo, k, 32);
    ResidueXor(p, hi + Zeros(64), Clmul(lo, k + Zeros(32)));
    ResidueShift(p, hi, 64);
    assert s == lo + hi;
    ResidueConcat(p, lo, hi);
    PowXor(p, 64, Pow(p, 64, Residue(p, lo)), Residue(p, hi));
    PowAdd(p, 64, 64, Residue(p, lo));
    XorComm(Pow(p, 64, Residue(p, hi)), Pow(p, 128, Residue(p, lo)));
  }

  lemma Narrow32(p: modulus, s: bits, k: word, s2: bits)
    requires |s| == 128 && s[96..] == Zeros(32) && k == Pow(p, 63, Unit())
    requires s2 == Xor(s[32..] + Zeros(32), Clmul(s[..32] + Zeros(32), k + Zeros(32)))
    ensures |s2| == 128 && s2[64..] == Zeros(64)
    ensures Residue(p, s2) == Pow(p, 32, Residue(p, s))
  {
    hide Pow, Residue, MulX, DivX, Clmul;
    var head, tail := s[..32], s[32..];
    LaneResidue(p, head + Zeros(32), k + Zeros(32), 32);
    ClmulPadLeft(head, k + Zeros(32), 32);
    ClmulPadRight(head, k, 32);
    assert forall i :: 64 <= i < 96 ==> !tail[i] by {
      assert tail[64..] == s[96..];
    }
    ResidueXor(p, tail + Zeros(32), Clmul(head + Zeros(32), k + Zeros(32)));
    ResidueShift(p, head, 32);
    PowAdd(p, 96, 32, Residue(p, head));
    ResidueShift(p, tail, 32);
    assert s == head + tail;
    ResidueConcat(p, head, tail);
    PowXor(p, 32, Pow(p, 96, Residue(p, head)), Residue(p, tail));
    PowAdd(p, 32, 96, Residue(p, head));
    XorComm(Pow(p, 32, Residue(p, tail)), Pow(p, 128, Residue(p, head)));
  }

  /** Barrett reduction: the quotient estimate is exact, so one subtraction leaves the residue. */
  method Barrett(p: modulus, t: bits) returns (r: word)
    requires |t| == 64
    ensures r == Residue(p, t)
  {
    hide Pow, Residue, MulX, DivX, Clmul;
    var m := PolyBarrett(p);
    var q := Clmul(t[..32] + Zeros(32), m)[..32];
    var prod := Clmul(q + Zeros(32), Monic(p));
    var x := Xor(t, prod[..64]);
    r := x[32..];
    Quotient(p, t[..32], m, q);
    var pp := Clmul(q, [true] + p);
    assert prod[..64] == pp[..64] && pp == pp[..64] + [false] by {
      ClmulPadLeft(q, Monic(p), 32);
      ClmulPadRight(q, [true] + p, 31);
      TopZero(q, [true] + p);
    }
    MultipleResidue(p, q, pp[..64]);
    ResidueXor(p, t, pp[..64]);
    XorZero(Residue(p, t));
    assert x == Zeros(32) + r;
    ResidueShift(p, r, 32);
    ResidueWord(p, r);
  }

  /** A product has one bit less than its operands together. */
  lemma {:induction false} TopZero(a: bits, b: bits)
    requires |a| > 0 && |b| > 0
    ensures !Clmul(a, b)[|a| + |b| - 1]
  {
    hide Clmul;
    var k := Clmul(a[1..], b);
    assert a == [a[0]] + a[1..];
    ClmulCons(a[0], a[1..], b);
    if |a| > 1 {
      TopZero(a[1..], b);
      assert !([false] + k)[|a| + |b| - 1];
    } else {
      assert a[1..] == Zeros(0);
      ClmulZeros(0, b);
    }
    assert !Mask(a[0], b + Zeros(|a|))[|a| + |b| - 1];
  }

  lemma MultipleResidue(p: modulus, q: bits, pp: bits)
    requires Clmul(q, [true] + p) == pp + [false]
    ensures Residue(p, pp) == Zeros(32)
  {
    hide Pow, Residue, MulX, DivX, Clmul;
    ResidueFirst(p, [true] + p);
    assert ([true] + p)[1..] == p;
    PowUnit(p);
    ResidueWord(p, p);
    XorZero(p);
    ResidueClmulZero(p, q, [true] + p);
    assert pp + [false] == pp + Zeros(1);
    ResidueShift(p, pp, 1);
    PowAdd(p, -1, 1, Residue(p, pp));
    PowSmall(p, Residue(p, pp));
    PowZero(p, -1);
  }

  /** q times the polynomial agrees with the high half of the dividend. */
  lemma Quotient(p: modulus, l: bits, m: bits, q: bits)
    requires |l| == 32 && |m| == 64 && m[33..] == Zeros(31)
    requires Clmul(m[..33], [true] + p)[..33] == [true] + Zeros(32)
    requires q == Clmul(l + Zeros(32), m)[..32]
    ensures Clmul(q, [true] + p)[..32] == l
  {
    hide Pow, Residue, MulX, DivX, Clmul;
    var m', mp := m[..33], [true] + p;
    assert q == Clmul(l, m')[..32] by {
      ClmulPadLeft(l, m, 32);
      assert m == m' + Zeros(31);
      ClmulPadRight(l, m', 31);
    }
    ClmulPrefixLeft(Clmul(l, m'), mp, 32);
    ClmulAssoc(l, m', mp);
    ClmulPrefixRight(l, Clmul(m', mp), 33);
    ClmulOne(l, 32);
    assert Clmul(l, Clmul(m', mp))[..32] == Clmul(l, Clmul(m', mp))[..33][..32];
    assert Clmul(l, [true] + Zeros(32))[..32] == Clmul(l, [true] + Zeros(32))[..33][..32];
    assert Clmul(l, [true] + Zeros(32))[..32] == l;
  }

  // ----- the whole computation -----

  /** Folds what is not a whole number of registers: eight, four, two and one bytes, as the length asks. */
  method Remainder(p: modulus, data: seq<byte>, s: vector, start: nat) returns (state: vector, pos: nat)
    requires start <= |data| && |data| - start < 32
    ensures start <= pos <= |data| && |data| - pos == if |data| - start >= 16 then 16 else 0
    ensures Total(p, state, Stream(data[pos..])) == Total(p, s, Stream(data[start..]))
  {
    hide Total, Stream, Pow, Residue;
    state, pos := s, start;
    var len := |data| - start;
    Halves(len);
    if len / 8 % 2 == 1 {
      state := FoldBlock(p, data, state, pos, 8);
      pos := pos + 8;
    }
    if len / 4 % 2 == 1 {
      state := FoldBlock(p, data, state, pos, 4);
      pos := pos + 4;
    }
    if len / 2 % 2 == 1 {
      state := FoldBlock(p, data, state, pos, 2);
      pos := pos + 2;
    }
    if len % 2 == 1 {
      state := FoldBlock(p, data, state, pos, 1);
      pos := pos + 1;
    }
  }

  lemma Halves(len: nat)
    requires len < 32
    ensures len == (if len >= 16 then 16 else 0) + 8 * (len / 8 % 2) + 4 * (len / 4 % 2) + 2 * (len / 2 % 2) + len % 2
  {
  }

  /** crc32_pclmul, called with at least four bytes. */
  method Pclmul(p: modulus, data: seq<byte>, crc: word) returns (r: word)
    requires |data| >= 4
    ensures r == Checksum(p, data, crc)
  {
    hide Pow, Residue, MulX, DivX, Total, DoFold, Stream, Clmul;
    var state: vector := Not(crc) + Zeros(96);
    ghost var start := state;
    var pos := 0;
    assert data[0..] == data;
    if |data| >= 16 + 48 + 16 {
      state, pos := FourLanes(p, data, state);
    }
    while |data| - pos >= 16 + 16
      invariant pos <= |data| && (pos > 0 ==> |data| - pos >= 16)
      invariant Total(p, state, Stream(data[pos..])) == Total(p, start, Stream(data))
    {
      state := FoldBlock(p, data, state, pos, 16);
      pos := pos + 16;
    }
    state, pos := Remainder(p, data, state, pos);
    ghost var before := state;
    if pos < |data| {
      state := Xor(state, Load16(data, pos));
      assert data[pos..pos + 16] == data[pos..];
    } else {
      var inverse := FoldAmount(p, -128);
      state := DoFold(state, inverse);
      FoldResidue(p, before, inverse, -128);
    }
    LastBlock(p, before, Stream(data[pos..]), state);
    var t := Narrow(p, state);
    r := Barrett(p, t);
    MessageResidue(p, Not(crc), Stream(data));
    r := Not(r);
  }

  lemma LastBlock(p: modulus, s: vector, rest: bits, state: vector)
    requires |rest| == 0 || |rest| == 128
    requires |rest| == 128 ==> state == Xor(s, rest)
    requires |rest| == 0 ==> Residue(p, state) == Pow(p, -128, Residue(p, s))
    ensures Residue(p, state) == Total(p, s, rest)
  {
    hide Pow, Residue, MulX, DivX;
    if |rest| == 0 {
      assert rest == Zeros(0);
      ResidueZeros(p, 0);
      XorZero(Residue(p, state));
    } else {
      ResidueXor(p, s, rest);
      PowSmall(p, Residue(p, s));
    }
  }

  lemma MessageResidue(p: modulus, c: word, s: bits)
    ensures Pow(p, 32, Total(p, c + Zeros(96), s)) == Serial(p, c, s)
  {
    hide Pow, Residue, MulX, DivX;
    TotalPad(p, c, 96, s);
    ResidueWord(p, c);
    PowXor(p, 32, Pow(p, |s| - 32, c), Residue(p, s));
    PowAdd(p, 32, |s| - 32, c);
    SerialResidue(p, c, s);
  }

  /** crc32, with the instruction set extension available or not. */
  method Crc(pclmul: bool, data: seq<byte>, crc: word) returns (r: word)
    ensures r == Checksum(Poly(), data, crc)
  {
    if |data| >= 4 && pclmul {
      r := Pclmul(Poly(), data, crc);
    } else {
      r := Small(Poly(), data, crc);
    }
  }
}
