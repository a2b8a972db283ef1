/** Polynomials over GF(2) as bit sequences, and the quotient by the CRC-32 polynomial.

    Registers are in the reflected order of the program: the earliest bit (element 0) has the highest
    degree, so bit 31 of a 32-bit register is the coefficient of x^0. */
module Gf2 {
  import opened Bits

  type word = s: bits | |s| == 32 witness seq(32, i => false)

  /** The low 32 coefficients of a monic polynomial of degree 32 whose constant coefficient is 1. */
  type modulus = s: bits | |s| == 32 && s[31] witness seq(32, i => true)

  /** a if b is set, else zero: the program's a & -b. */
  function Mask(b: bool, a: bits): (r: bits)
    ensures |r| == |a|
  {
    if b then a else Zeros(|a|)
  }

  /** The polynomial 1. */
  function Unit(): word {
    Zeros(31) + [true]
  }

  /** Multiplication by x modulo the CRC polynomial. */
  function MulX(p: modulus, c: word): word {
    Xor(c[1..] + [false], Mask(c[0], p))
  }

  /** Division by x modulo the CRC polynomial. */
  function DivX(p: modulus, c: word): word {
    Xor([false] + c[..31], Mask(c[31], [true] + p[..31]))
  }

  /** c times x^n, for any integer n. */
  function Pow(p: modulus, n: int, c: word): word
    decreases if n < 0 then -n else n
  {
    if n == 0 then c
    else if n > 0 then MulX(p, Pow(p, n - 1, c))
    else DivX(p, Pow(p, n + 1, c))
  }

  lemma XorZero(a: bits)
    ensures Xor(a, Zeros(|a|)) == a == Xor(Zeros(|a|), a)
    ensures Xor(a, a) == Zeros(|a|)
  {
  }

  lemma XorComm(a: bits, b: bits)
    requires |a| == |b|
    ensures Xor(a, b) == Xor(b, a)
  {
  }

  lemma XorAssoc(a: bits, b: bits, c: bits)
    requires |a| == |b| == |c|
    ensures Xor(Xor(a, b), c) == Xor(a, Xor(b, c))
  {
  }

  lemma XorConcat(a: bits, b: bits, c: bits, d: bits)
    requires |a| == |c| && |b| == |d|
    ensures Xor(a + b, c + d) == Xor(a, c) + Xor(b, d)
  {
  }

  /** (a ^ b) ^ (c ^ d) == (a ^ c) ^ (b ^ d) */
  lemma XorSwap(a: bits, b: bits, c: bits, d: bits)
    requires |a| == |b| == |c| == |d|
    ensures Xor(Xor(a, b), Xor(c, d)) == Xor(Xor(a, c), Xor(b, d))
  {
  }

  lemma MulDiv(p: modulus, c: word)
    ensures MulX(p, DivX(p, c)) == c
    ensures DivX(p, MulX(p, c)) == c
  {
  }

  lemma MulXLinear(p: modulus, a: word, b: word)
    ensures MulX(p, Xor(a, b)) == Xor(MulX(p, a), MulX(p, b))
    ensures DivX(p, Xor(a, b)) == Xor(DivX(p, a), DivX(p, b))
  {
  }

  lemma PowSmall(p: modulus, c: word)
    ensures Pow(p, 0, c) == c
    ensures Pow(p, 1, c) == MulX(p, c)
  {
  }

  lemma PowUp(p: modulus, n: int, c: word)
    ensures MulX(p, Pow(p, n, c)) == Pow(p, n + 1, c)
  {
    MulDiv(p, Pow(p, n + 1, c));
  }

  lemma PowDown(p: modulus, n: int, c: word)
    ensures DivX(p, Pow(p, n, c)) == Pow(p, n - 1, c)
  {
    MulDiv(p, Pow(p, n - 1, c));
  }

  lemma {:induction false} PowAdd(p: modulus, m: int, n: int, c: word)
    ensures Pow(p, m, Pow(p, n, c)) == Pow(p, m + n, c)
    decreases if m < 0 then -m else m
  {
    hide MulX, DivX;
    var d := Pow(p, n, c);
    if m > 0 {
      PowAdd(p, m - 1, n, c);
      PowUp(p, m - 1, d);
      PowUp(p, m - 1 + n, c);
    } else if m < 0 {
      PowAdd(p, m + 1, n, c);
      PowDown(p, m + 1, d);
      PowDown(p, m + 1 + n, c);
    }
  }

  lemma {:induction false} PowXor(p: modulus, n: int, a: word, b: word)
    ensures Pow(p, n, Xor(a, b)) == Xor(Pow(p, n, a), Pow(p, n, b))
    decreases if n < 0 then -n else n
  {
    hide MulX, DivX, Xor;
    if n > 0 {
      PowXor(p, n - 1, a, b);
      MulXLinear(p, Pow(p, n - 1, a), Pow(p, n - 1, b));
    } else if n < 0 {
      PowXor(p, n + 1, a, b);
      MulXLinear(p, Pow(p, n + 1, a), Pow(p, n + 1, b));
    }
  }

  lemma {:induction false} PowZero(p: modulus, n: int)
    ensures Pow(p, n, Zeros(32)) == Zeros(32)
    decreases if n < 0 then -n else n
  {
    if n > 0 {
      PowZero(p, n - 1);
    } else if n < 0 {
      PowZero(p, n + 1);
    }
  }

  /** The residue of a bit sequence, read as a polynomial whose last bit is the constant coefficient. */
  function Residue(p: modulus, s: bits): word {
    if |s| == 0 then Zeros(32)
    else Xor(MulX(p, Residue(p, s[..|s| - 1])), Mask(s[|s| - 1], Unit()))
  }

  lemma ResidueSnoc(p: modulus, s: bits, b: bool)
    ensures Residue(p, s + [b]) == Xor(MulX(p, Residue(p, s)), Mask(b, Unit()))
  {
    assert (s + [b])[..|s + [b]| - 1] == s;
  }

  lemma {:induction false} ResidueZeros(p: modulus, n: nat)
    ensures Residue(p, Zeros(n)) == Zeros(32)
  {
    if n > 0 {
      ResidueZeros(p, n - 1);
      assert Zeros(n) == Zeros(n - 1) + [false];
      ResidueSnoc(p, Zeros(n - 1), false);
    }
  }

  lemma ResidueLast(p: modulus, s: bits)
    requires |s| > 0
    ensures Residue(p, s) == Xor(MulX(p, Residue(p, s[..|s| - 1])), Mask(s[|s| - 1], Unit()))
  {
  }

  lemma ResidueEmpty(p: modulus)
    ensures Residue(p, []) == Zeros(32)
  {
  }

  lemma MaskXor(b: bool, c: bool, a: bits)
    ensures Mask(b != c, a) == Xor(Mask(b, a), Mask(c, a))
  {
  }

  lemma {:induction false} ResidueXor(p: modulus, s: bits, t: bits)
    requires |s| == |t|
    ensures Residue(p, Xor(s, t)) == Xor(Residue(p, s), Residue(p, t))
  {
    hide MulX, DivX, Residue, Mask;
    if |s| > 0 {
      var s', t' := s[..|s| - 1], t[..|s| - 1];
      var b, c := s[|s| - 1], t[|s| - 1];
      ResidueXor(p, s', t');
      assert Xor(s, t)[..|s| - 1] == Xor(s', t');
      ResidueLast(p, s);
      ResidueLast(p, t);
      ResidueLast(p, Xor(s, t));
      MulXLinear(p, Residue(p, s'), Residue(p, t'));
      MaskXor(b, c, Unit());
      XorSwap(MulX(p, Residue(p, s')), MulX(p, Residue(p, t')), Mask(b, Unit()), Mask(c, Unit()));
    } else {
      assert Xor(s, t) == [] == s == t;
      ResidueEmpty(p);
      XorZero(Zeros(32));
    }
  }

  /** A sequence of at most 32 bits is its own residue, aligned to the end of the register. */
  lemma {:induction false} ResidueShort(p: modulus, s: bits)
    requires |s| <= 32
    ensures Residue(p, s) == Zeros(32 - |s|) + s
  {
    hide MulX, DivX, Residue, Mask;
    if |s| > 0 {
      ResidueShort(p, s[..|s| - 1]);
      ResidueLast(p, s);
      ShiftIn(p, s);
    } else {
      ResidueEmpty(p);
    }
  }

  /** Multiplying by x a register whose top bit is clear moves it up by one. */
  lemma ShiftIn(p: modulus, s: bits)
    requires 0 < |s| <= 32
    ensures Xor(MulX(p, Zeros(33 - |s|) + s[..|s| - 1]), Mask(s[|s| - 1], Unit())) == Zeros(32 - |s|) + s
  {
  }

  lemma ResidueWord(p: modulus, w: word)
    ensures Residue(p, w) == w
  {
    hide Residue;
    ResidueShort(p, w);
    assert Zeros(0) + w == w;
  }

  /** Appending t multiplies by x^|t| and adds. */
  lemma {:induction false} ResidueConcat(p: modulus, s: bits, t: bits)
    ensures Residue(p, s + t) == Xor(Pow(p, |t|, Residue(p, s)), Residue(p, t))
  {
    hide MulX, DivX, Residue, Pow, Mask;
    if |t| == 0 {
      assert s + t == s && t == [];
      ResidueEmpty(p);
      PowSmall(p, Residue(p, s));
      XorZero(Residue(p, s));
    } else {
      var t', b := t[..|t| - 1], t[|t| - 1];
      assert s + t == (s + t') + [b];
      assert t == t' + [b];
      ResidueConcat(p, s, t');
      ResidueSnoc(p, s + t', b);
      ResidueSnoc(p, t', b);
      MulXLinear(p, Pow(p, |t'|, Residue(p, s)), Residue(p, t'));
      PowUp(p, |t'|, Residue(p, s));
      XorAssoc(MulX(p, Pow(p, |t'|, Residue(p, s))), MulX(p, Residue(p, t')), Mask(b, Unit()));
    }
  }

  lemma ResidueShift(p: modulus, s: bits, n: nat)
    ensures Residue(p, s + Zeros(n)) == Pow(p, n, Residue(p, s))
    ensures Residue(p, Zeros(n) + s) == Residue(p, s)
  {
    ResidueConcat(p, s, Zeros(n));
    ResidueConcat(p, Zeros(n), s);
    ResidueZeros(p, n);
    PowZero(p, |s|);
    XorZero(Pow(p, n, Residue(p, s)));
    XorZero(Residue(p, s));
  }

  /** Carry-less product of a and b as polynomials in the stream position (bit 0 lowest). */
  function Clmul(a: bits, b: bits): (r: bits)
    ensures |r| == |a| + |b|
  {
    if |a| == 0 then Zeros(|b|)
    else Xor(Mask(a[0], b + Zeros(|a|)), [false] + Clmul(a[1..], b))
  }

  lemma MaskPow(p: modulus, b: bool, n: int, k: int)
    ensures Pow(p, k, Mask(b, Pow(p, n, Unit()))) == Mask(b, Pow(p, k + n, Unit()))
  {
    PowAdd(p, k, n, Unit());
    PowZero(p, k);
  }

  lemma ResidueFirst(p: modulus, a: bits)
    requires |a| > 0
    ensures Residue(p, a) == Xor(Mask(a[0], Pow(p, |a| - 1, Unit())), Residue(p, a[1..]))
  {
    assert a == [a[0]] + a[1..];
    ResidueConcat(p, [a[0]], a[1..]);
    ResidueShort(p, [a[0]]);
    assert Residue(p, [a[0]]) == Mask(a[0], Pow(p, 0, Unit()));
    MaskPow(p, a[0], 0, |a| - 1);
  }

  lemma MaskResidue(p: modulus, x: bool, s: bits)
    ensures Residue(p, Mask(x, s)) == Mask(x, Residue(p, s))
  {
    hide MulX, Residue;
    ResidueZeros(p, |s|);
  }

  /** A product with an operand whose residue is a power of x multiplies the residue by the next power. */
  lemma {:induction false} ResidueClmul(p: modulus, a: bits, b: bits, e: int)
    requires Residue(p, b) == Pow(p, e, Unit())
    ensures Residue(p, Clmul(a, b)) == Pow(p, e + 1, Residue(p, a))
  {
    hide MulX, DivX, Pow, Residue, Clmul, Mask;
    if |a| == 0 {
      assert a == Zeros(0);
      ClmulZeros(0, b);
      ResidueZeros(p, |b|);
      ResidueZeros(p, 0);
      PowZero(p, e + 1);
    } else {
      var n, x, rest := |a|, a[0], Clmul(a[1..], b);
      assert a == [x] + a[1..];
      ClmulCons(x, a[1..], b);
      ResidueXor(p, Mask(x, b + Zeros(n)), [false] + rest);
      assert [false] + rest == Zeros(1) + rest;
      ResidueShift(p, rest, 1);
      ResidueClmul(p, a[1..], b, e);
      MaskResidue(p, x, b + Zeros(n));
      ResidueShift(p, b, n);
      PowAdd(p, n, e, Unit());
      ResidueFirst(p, a);
      PowXor(p, e + 1, Mask(x, Pow(p, n - 1, Unit())), Residue(p, a[1..]));
      MaskPow(p, x, n - 1, e + 1);
    }
  }

  /** One row of the product: a multiple of p, moved up. */
  lemma ResidueRow(p: modulus, c: bool, b: bits, k: nat)
    requires Residue(p, b) == Zeros(32)
    ensures Residue(p, Mask(c, b + Zeros(k))) == Zeros(32)
  {
    hide MulX, DivX, Pow, Residue;
    ResidueShift(p, b, k);
    ResidueZeros(p, |b| + k);
    PowZero(p, k);
  }

  lemma {:induction false} ResidueClmulZero(p: modulus, a: bits, b: bits)
    requires Residue(p, b) == Zeros(32)
    ensures Residue(p, Clmul(a, b)) == Zeros(32)
  {
    hide MulX, DivX, Pow, Residue, Mask;
    if |a| == 0 {
      ResidueZeros(p, |b|);
    } else {
      var rest := Clmul(a[1..], b);
      ResidueXor(p, Mask(a[0], b + Zeros(|a|)), [false] + rest);
      assert [false] + rest == Zeros(1) + rest;
      ResidueShift(p, rest, 1);
      ResidueClmulZero(p, a[1..], b);
      ResidueRow(p, a[0], b, |a|);
      XorZero(Zeros(32));
    }
  }

  lemma {:induction false} ClmulZeros(n: nat, b: bits)
    ensures Clmul(Zeros(n), b) == Zeros(n + |b|)
  {
    if n > 0 {
      assert Zeros(n)[1..] == Zeros(n - 1);
      ClmulZeros(n - 1, b);
    }
  }

  lemma {:induction false} ClmulPadRight(a: bits, b: bits, n: nat)
    ensures Clmul(a, b + Zeros(n)) == Clmul(a, b) + Zeros(n)
  {
    if |a| > 0 {
      ClmulPadRight(a[1..], b, n);
    }
  }

  lemma {:induction false} ClmulPadLeft(a: bits, b: bits, n: nat)
    ensures Clmul(a + Zeros(n), b) == Clmul(a, b) + Zeros(n)
  {
    if |a| == 0 {
      assert a + Zeros(n) == Zeros(n);
      ClmulZeros(n, b);
    } else {
      assert (a + Zeros(n))[1..] == a[1..] + Zeros(n);
      ClmulPadLeft(a[1..], b, n);
    }
  }

  lemma {:induction false} ClmulXor(a: bits, b: bits, c: bits)
    requires |a| == |b|
    ensures Clmul(Xor(a, b), c) == Xor(Clmul(a, c), Clmul(b, c))
  {
    if |a| > 0 {
      assert Xor(a, b)[1..] == Xor(a[1..], b[1..]);
      ClmulXor(a[1..], b[1..], c);
    }
  }

  lemma XorSnoc(m: bits, k: bits, w: bits)
    requires |m| == |k| + 1 == |w|
    ensures Xor(m + [false], [false] + Xor(k + [false], w)) == Xor(Xor(m, [false] + k) + [false], [false] + w)
  {
    assert [false] + Xor(k + [false], w) == Xor([false] + k + [false], [false] + w);
    XorAssoc(m + [false], [false] + k + [false], [false] + w);
    XorConcat(m, [false], [false] + k, [false]);
    assert Xor([false], [false]) == [false];
  }

  lemma ClmulCons(x: bool, a: bits, b: bits)
    ensures Clmul([x] + a, b) == Xor(Mask(x, b + Zeros(|a| + 1)), [false] + Clmul(a, b))
  {
    assert ([x] + a)[1..] == a;
  }

  lemma MaskPad(b: bool, a: bits, n: nat)
    ensures Mask(b, a + Zeros(n)) == Mask(b, a) + Zeros(n)
  {
  }

  lemma {:induction false} ClmulSnoc(a: bits, b: bool, c: bits)
    ensures Clmul(a + [b], c) == Xor(Clmul(a, c) + [false], Zeros(|a|) + Mask(b, c) + [false])
  {
    hide Clmul, Mask;
    if |a| == 0 {
      assert a == Zeros(0) && a + [b] == [b] + Zeros(0);
      ClmulZeros(0, c);
      ClmulCons(b, Zeros(0), c);
      MaskPad(b, c, 1);
    } else {
      var n := |a|;
      var m, k := Mask(a[0], c + Zeros(n)), Clmul(a[1..], c);
      var w := Zeros(n - 1) + Mask(b, c) + [false];
      ClmulSnoc(a[1..], b, c);
      assert a == [a[0]] + a[1..];
      ClmulCons(a[0], a[1..], c);
      assert a + [b] == [a[0]] + (a[1..] + [b]);
      ClmulCons(a[0], a[1..] + [b], c);
      MaskPad(a[0], c + Zeros(n), 1);
      assert c + Zeros(n + 1) == c + Zeros(n) + Zeros(1);
      assert m + [false] == m + Zeros(1);
      XorSnoc(m, k, w);
      assert [false] + w == Zeros(n) + Mask(b, c) + [false];
    }
  }

  lemma ClmulMask(b: bool, s: bits, c: bits)
    ensures Clmul(Mask(b, s), c) == Mask(b, Clmul(s, c))
  {
    ClmulZeros(|s|, c);
  }

  lemma ClmulShift(a: bits, c: bits)
    ensures Clmul([false] + a, c) == [false] + Clmul(a, c)
  {
    assert ([false] + a)[1..] == a;
    assert Mask(false, c + Zeros(|a| + 1)) == Zeros(|c| + |a| + 1);
  }

  lemma {:induction false} ClmulAssoc(a: bits, b: bits, c: bits)
    ensures Clmul(Clmul(a, b), c) == Clmul(a, Clmul(b, c))
  {
    if |a| == 0 {
      ClmulZeros(|b|, c);
    } else {
      var rest := Clmul(a[1..], b);
      var first := Mask(a[0], b + Zeros(|a|));
      assert Clmul(a, b) == Xor(first, [false] + rest);
      assert Clmul(a, Clmul(b, c))
          == Xor(Mask(a[0], Clmul(b, c) + Zeros(|a|)), [false] + Clmul(a[1..], Clmul(b, c)));
      ClmulAssoc(a[1..], b, c);
      hide Clmul, Mask;
      ClmulXor(first, [false] + rest, c);
      ClmulMask(a[0], b + Zeros(|a|), c);
      ClmulShift(rest, c);
      ClmulPadLeft(b, c, |a|);
    }
  }

  lemma XorPrefix(m: bits, k: bits, m': bits, k': bits, n: nat)
    requires |m| == |k| && |m'| == |k'| && n <= |m| && n <= |m'|
    requires m[..n] == m'[..n] && k[..n] == k'[..n]
    ensures Xor(m, k)[..n] == Xor(m', k')[..n]
  {
    assert Xor(m, k)[..n] == Xor(m[..n], k[..n]);
    assert Xor(m', k')[..n] == Xor(m'[..n], k'[..n]);
  }

  /** The low n bits of a product depend only on the low n bits of its operands. */
  lemma {:induction false} ClmulPrefixLeft(a: bits, b: bits, n: nat)
    requires n <= |a|
    ensures Clmul(a, b)[..n] == Clmul(a[..n], b)[..n]
  {
    hide Clmul, Mask;
    if n > 0 {
      var k, k' := Clmul(a[1..], b), Clmul(a[1..][..n - 1], b);
      var m, m' := Mask(a[0], b + Zeros(|a|)), Mask(a[0], b + Zeros(n));
      ClmulPrefixLeft(a[1..], b, n - 1);
      assert a == [a[0]] + a[1..] && a[..n] == [a[0]] + a[1..][..n - 1];
      ClmulCons(a[0], a[1..], b);
      ClmulCons(a[0], a[1..][..n - 1], b);
      assert ([false] + k)[..n] == [false] + k[..n - 1];
      assert ([false] + k')[..n] == [false] + k'[..n - 1];
      MaskPrefix(a[0], b, |a|, n);
      XorPrefix(m, [false] + k, m', [false] + k', n);
    }
  }

  lemma MaskPrefix(x: bool, b: bits, i: nat, n: nat)
    requires n <= i
    ensures Mask(x, b + Zeros(i))[..n] == Mask(x, b + Zeros(n))[..n]
  {
  }

  lemma {:induction false} ClmulPrefixRight(a: bits, b: bits, n: nat)
    requires n <= |b|
    ensures Clmul(a, b)[..n] == Clmul(a, b[..n])[..n]
  {
    hide Clmul, Mask;
    if |a| == 0 {
      assert a == Zeros(0);
      ClmulZeros(0, b);
      ClmulZeros(0, b[..n]);
    } else if n > 0 {
      var k, k' := Clmul(a[1..], b), Clmul(a[1..], b[..n]);
      var m, m' := Mask(a[0], b + Zeros(|a|)), Mask(a[0], b[..n] + Zeros(|a|));
      ClmulPrefixRight(a[1..], b, n);
      assert a == [a[0]] + a[1..];
      ClmulCons(a[0], a[1..], b);
      ClmulCons(a[0], a[1..], b[..n]);
      assert k[..n - 1] == k[..n][..n - 1] == k'[..n][..n - 1] == k'[..n - 1];
      assert ([false] + k)[..n] == [false] + k[..n - 1];
      assert ([false] + k')[..n] == [false] + k'[..n - 1];
      MaskPrefixRight(a[0], b, |a|, n);
      XorPrefix(m, [false] + k, m', [false] + k', n);
    }
  }

  lemma MaskPrefixRight(x: bool, b: bits, i: nat, n: nat)
    requires n <= |b|
    ensures Mask(x, b + Zeros(i))[..n] == Mask(x, b[..n] + Zeros(i))[..n]
  {
  }

  lemma {:induction false} ClmulOne(a: bits, n: nat)
    ensures Clmul(a, [true] + Zeros(n)) == a + Zeros(n + 1)
  {
    if |a| > 0 {
      ClmulOne(a[1..], n);
    }
  }
}
