/** The CRC of section 8 of RFC 1952 in the arithmetic of the program: 32-bit words, shifts and exclusive or. */
module Crc32Rfc {
  import opened Bits
  import opened Gf2
  import opened Crc32
  import opened Crc32Fold

  function Half(x: bv32): bv32 {
    x >> 1
  }

  predicate Odd(x: bv32) {
    x & 1 != 0
  }

  function Plus(x: bv32, y: bv32): bv32 {
    x ^ y
  }

  /** The n lowest bits of a word, the least significant first. */
  function Low(x: bv32, n: nat): (s: bits)
    ensures |s| == n
  {
    if n == 0 then [] else [Odd(x)] + Low(Half(x), n - 1)
  }

  /** A 32-bit word as its bits. */
  function Word(x: bv32): word {
    Low(x, 32)
  }

  /** One bit: the polynomial is 0xEDB88320. */
  function Step(x: bv32, b: bool): bv32 {
    var y := if b then x ^ 1 else x;
    if y & 1 != 0 then (y >> 1) ^ 0xEDB88320 else y >> 1
  }

  function Steps(x: bv32, s: bits): bv32
    decreases |s|
  {
    if |s| == 0 then x else Steps(Step(x, s[0]), s[1..])
  }

  lemma Byte0()
    ensures BitsOf(0x20, 8) == [false, false, false, false, false, true, false, false]
  {
  }

  lemma Byte1()
    ensures BitsOf(0x83, 8) == [true, true, false, false, false, false, false, true]
  {
  }

  lemma Byte2()
    ensures BitsOf(0xB8, 8) == [false, false, false, true, true, true, false, true]
  {
  }

  lemma Byte3()
    ensures BitsOf(0xED, 8) == [true, false, true, true, false, true, true, true]
  {
  }

  lemma {:induction false} BitsSplit(n: nat, a: nat, b: nat)
    ensures BitsOf(n, a + b) == BitsOf(n, a) + BitsOf(n / Pow2(a), b)
  {
    if a > 0 {
      BitsSplit(n / 2, a - 1, b);
      DivPow(n, a - 1);
    }
  }

  lemma DivPow(n: nat, a: nat)
    ensures n / 2 / Pow2(a) == n / (2 * Pow2(a))
  {
    var p := Pow2(a);
    var q, r := n / 2 / p, n / 2 % p;
    assert n / 2 == q * p + r;
    assert n == q * (2 * p) + (2 * r + n % 2);
    DivModUnique(n, 2 * p, q, 2 * r + n % 2);
  }

  /** The polynomial, bit by bit. */
  lemma PolyBits()
    ensures Poly() == [
      false, false, false, false, false, true, false, false,
      true, true, false, false, false, false, false, true,
      false, false, false, true, true, true, false, true,
      true, false, true, true, false, true, true, true]
  {
    Powers();
    hide BitsOf, Pow2;
    BitsSplit(0xEDB88320, 8, 24);
    BitsSplit(0xEDB883, 8, 16);
    BitsSplit(0xEDB8, 8, 8);
    LowByte(0xEDB88320, 0x20);
    LowByte(0xEDB883, 0x83);
    LowByte(0xEDB8, 0xB8);
    Byte0();
    Byte1();
    Byte2();
    Byte3();
  }

  lemma LowByte(n: nat, b: nat)
    requires n % 256 == b
    ensures BitsOf(n, 8) == BitsOf(b, 8)
  {
    NatOfBitsOf(n, 8);
    NatOfBitsOf(b, 8);
    Powers();
    BitsOfNatOf(BitsOf(n, 8));
    BitsOfNatOf(BitsOf(b, 8));
    hide BitsOf, NatOf, Pow2;
  }

  /** The coefficients of the polynomial: x^26 + x^23 + x^22 + x^16 + x^12 + x^11 + x^10 + x^8 + x^7 + x^5 + x^4 +
      x^2 + x + 1, and x^32. */
  lemma Exponents()
    ensures forall i :: 0 <= i < 32 ==> (Poly()[i] <==> 31 - i in {26, 23, 22, 16, 12, 11, 10, 8, 7, 5, 4, 2, 1, 0})
  {
    PolyBits();
    hide Poly;
  }

  lemma LowNext(x: bv32, n: nat)
    requires n > 0
    ensures Low(x, n) == [Odd(x)] + Low(Half(x), n - 1)
  {
  }

  lemma LowFour(x: bv32, a: bv32, b: bv32, c: bv32, d: bv32, n: nat)
    requires a == Half(x) && b == Half(a) && c == Half(b) && d == Half(c)
    ensures Low(x, n + 4) == [Odd(x), Odd(a), Odd(b), Odd(c)] + Low(d, n)
  {
    hide Low, Half, Odd;
    LowNext(x, n + 4);
    LowNext(a, n + 3);
    LowNext(b, n + 2);
    LowNext(c, n + 1);
    Chained(Odd(x), Odd(a), Odd(b), Odd(c), Low(d, n));
  }

  lemma Chained(a: bool, b: bool, c: bool, d: bool, s: bits)
    ensures [a] + ([b] + ([c] + ([d] + s))) == [a, b, c, d] + s
  {
  }

  lemma PolyLow()
    ensures Low(0xEDB8, 16) == [
      false, false, false, true, true, true, false, true,
      true, false, true, true, false, true, true, true]
  {
    hide Low;
    LowFour(0xEDB8, 0x76DC, 0x3B6E, 0x1DB7, 0xEDB, 12);
    LowFour(0xEDB, 0x76D, 0x3B6, 0x1DB, 0xED, 8);
    LowFour(0xED, 0x76, 0x3B, 0x1D, 0xE, 4);
    LowFour(0xE, 0x7, 0x3, 0x1, 0x0, 0);
    LowNone(0);
  }

  lemma PolyHigh()
    ensures Low(0xEDB88320, 32) == [false, false, false, false] + ([false, true, false, false]
      + ([true, true, false, false] + ([false, false, false, true] + Low(0xEDB8, 16))))
  {
    hide Low;
    LowFour(0xEDB88320, 0x76DC4190, 0x3B6E20C8, 0x1DB71064, 0xEDB8832, 28);
    LowFour(0xEDB8832, 0x76DC419, 0x3B6E20C, 0x1DB7106, 0xEDB883, 24);
    LowFour(0xEDB883, 0x76DC41, 0x3B6E20, 0x1DB710, 0xEDB88, 20);
    LowFour(0xEDB88, 0x76DC4, 0x3B6E2, 0x1DB71, 0xEDB8, 16);
  }

  lemma PolyWord()
    ensures Poly() == Word(0xEDB88320)
  {
    PolyBits();
    PolyLow();
    PolyHigh();
    hide Poly, Low;
  }

  lemma LowNone(x: bv32)
    ensures Low(x, 0) == []
  {
  }

  // ----- the same as the bit-serial form -----

  lemma PlusParts(x: bv32, y: bv32)
    ensures Half(Plus(x, y)) == Plus(Half(x), Half(y))
    ensures Odd(Plus(x, y)) <==> Odd(x) != Odd(y)
  {
    assert (x ^ y) & 1 == (x & 1) ^ (y & 1);
    assert (x & 1 == 0 || x & 1 == 1) && (y & 1 == 0 || y & 1 == 1);
  }

  lemma {:induction false} LowXor(x: bv32, y: bv32, n: nat)
    ensures Xor(Low(x, n), Low(y, n)) == Low(Plus(x, y), n)
  {
    if n > 0 {
      hide Low, Half, Odd, Plus;
      PlusParts(x, y);
      LowNext(x, n);
      LowNext(y, n);
      LowNext(Plus(x, y), n);
      LowXor(Half(x), Half(y), n - 1);
      XorConcat([Odd(x)], Low(Half(x), n - 1), [Odd(y)], Low(Half(y), n - 1));
      assert Xor([Odd(x)], [Odd(y)]) == [Odd(x) != Odd(y)];
    }
  }

  function Down(x: bv32, n: nat): bv32 {
    if n == 0 then x else Down(Half(x), n - 1)
  }

  lemma {:induction false} LowLast(x: bv32, n: nat)
    ensures Low(x, n + 1) == Low(x, n) + [Odd(Down(x, n))]
    decreases n
  {
    hide Half, Odd;
    if n > 0 {
      LowLast(Half(x), n - 1);
    }
  }

  lemma DownNext(x: bv32, n: nat)
    ensures Down(x, n + 1) == Down(Half(x), n)
  {
    hide Half;
  }

  lemma DownFour(x: bv32, a: bv32, b: bv32, c: bv32, d: bv32, n: nat)
    requires a == Half(x) && b == Half(a) && c == Half(b) && d == Half(c)
    ensures Down(x, n + 4) == Down(d, n)
  {
    hide Half, Down;
    DownNext(x, n + 3);
    DownNext(a, n + 2);
    DownNext(b, n + 1);
    DownNext(c, n);
  }

  lemma HalfOrder(x: bv32, y: bv32)
    requires x <= y
    ensures Half(x) <= Half(y)
  {
  }

  lemma {:induction false} DownOrder(x: bv32, y: bv32, n: nat)
    requires x <= y
    ensures Down(x, n) <= Down(y, n)
    decreases n
  {
    hide Half;
    if n > 0 {
      HalfOrder(x, y);
      DownOrder(Half(x), Half(y), n - 1);
    }
  }

  lemma Gone()
    ensures Down(0xFFFFFFFF, 32) == 0
  {
    hide Down;
    DownFour(0xFFFFFFFF, 0x7FFFFFFF, 0x3FFFFFFF, 0x1FFFFFFF, 0xFFFFFFF, 28);
    DownFour(0xFFFFFFF, 0x7FFFFFF, 0x3FFFFFF, 0x1FFFFFF, 0xFFFFFF, 24);
    DownFour(0xFFFFFF, 0x7FFFFF, 0x3FFFFF, 0x1FFFFF, 0xFFFFF, 20);
    DownFour(0xFFFFF, 0x7FFFF, 0x3FFFF, 0x1FFFF, 0xFFFF, 16);
    DownFour(0xFFFF, 0x7FFF, 0x3FFF, 0x1FFF, 0xFFF, 12);
    DownFour(0xFFF, 0x7FF, 0x3FF, 0x1FF, 0xFF, 8);
    DownFour(0xFF, 0x7F, 0x3F, 0x1F, 0xF, 4);
    DownFour(0xF, 0x7, 0x3, 0x1, 0x0, 0);
    DownNone(0);
  }

  /** Nothing is left after 32 places. */
  lemma DownAll(x: bv32)
    ensures Down(Half(x), 31) == 0
  {
    assert x <= 0xFFFFFFFF;
    hide Down, Half;
    DownNext(x, 31);
    DownOrder(x, 0xFFFFFFFF, 32);
    Gone();
  }

  lemma DownNone(x: bv32)
    ensures Down(x, 0) == x
  {
  }

  lemma WordXor(x: bv32, y: bv32)
    ensures Xor(Word(x), Word(y)) == Word(Plus(x, y))
  {
    LowXor(x, y, 32);
  }

  lemma WordShift(x: bv32)
    ensures Word(x)[1..] + [false] == Word(Half(x)) && Word(x)[0] == Odd(x)
  {
    NotOdd();
    hide Low, Down, Half, Odd;
    LowNext(x, 32);
    LowLast(Half(x), 31);
    DownAll(x);
  }

  lemma NotOdd()
    ensures !Odd(0)
  {
  }

  lemma {:induction false} LowZero(n: nat)
    ensures Low(0, n) == Zeros(n)
  {
    if n > 0 {
      assert Half(0) == 0 && !Odd(0);
      LowZero(n - 1);
    }
  }

  lemma WordBit(b: bool)
    ensures [b] + Zeros(31) == Word(if b then 1 else 0) && Zeros(32) == Word(0)
  {
    LowZero(31);
    LowZero(32);
    assert Half(1) == 0 && Odd(1);
    LowNext(1, 32);
    hide Low;
  }

  lemma OneStep(x: bv32, b: bool)
    ensures Shift(Poly(), Word(x), b) == Word(Step(x, b))
  {
    StepIs(x, b);
    hide Word, Poly, Half, Odd, Plus, Step;
    var y, u: bv32 := Plus(x, if b then 1 else 0), if b then 1 else 0;
    WordBit(b);
    WordXor(x, u);
    WordShift(y);
    PolyWord();
    if Odd(y) {
      WordXor(Half(y), 0xEDB88320);
    } else {
      XorZero(Word(Half(y)));
    }
  }

  lemma StepIs(x: bv32, b: bool)
    ensures var y := Plus(x, if b then 1 else 0); Step(x, b) == if Odd(y) then Plus(Half(y), 0xEDB88320) else Half(y)
  {
    assert x ^ 0 == x;
  }

  /** The bit-serial form computes the steps of section 8, for any data and start value. */
  lemma {:induction false} SerialExactly(x: bv32, s: bits)
    ensures Serial(Poly(), Word(x), s) == Word(Steps(x, s))
    decreases |s|
  {
    hide Word, Poly, Shift, Step;
    if |s| > 0 {
      OneStep(x, s[0]);
      SerialExactly(Step(x, s[0]), s[1..]);
    }
  }

  lemma WordNot(x: bv32)
    ensures Not(Word(x)) == Word(x ^ 0xFFFFFFFF)
  {
    AllOnes();
    assert Plus(x, 0xFFFFFFFF) == x ^ 0xFFFFFFFF;
    hide Word, Plus;
    WordXor(x, 0xFFFFFFFF);
    assert Not(Word(x)) == Xor(Word(x), Word(0xFFFFFFFF));
  }

  lemma AllOnes()
    ensures forall i :: 0 <= i < 32 ==> Word(0xFFFFFFFF)[i]
  {
    hide Low;
    LowFour(0xFFFFFFFF, 0x7FFFFFFF, 0x3FFFFFFF, 0x1FFFFFFF, 0xFFFFFFF, 28);
    LowFour(0xFFFFFFF, 0x7FFFFFF, 0x3FFFFFF, 0x1FFFFFF, 0xFFFFFF, 24);
    LowFour(0xFFFFFF, 0x7FFFFF, 0x3FFFFF, 0x1FFFFF, 0xFFFFF, 20);
    LowFour(0xFFFFF, 0x7FFFF, 0x3FFFF, 0x1FFFF, 0xFFFF, 16);
    LowFour(0xFFFF, 0x7FFF, 0x3FFF, 0x1FFF, 0xFFF, 12);
    LowFour(0xFFF, 0x7FF, 0x3FF, 0x1FF, 0xFF, 8);
    LowFour(0xFF, 0x7F, 0x3F, 0x1F, 0xF, 4);
    LowFour(0xF, 0x7, 0x3, 0x1, 0x0, 0);
  }

  /** So the checksum is theirs, with the complement before and after. */
  lemma ChecksumExactly(data: seq<byte>, x: bv32)
    ensures Checksum(Poly(), data, Word(x)) == Word(Steps(x ^ 0xFFFFFFFF, Stream(data)) ^ 0xFFFFFFFF)
  {
    hide Word, Poly, Stream;
    WordNot(x);
    SerialExactly(x ^ 0xFFFFFFFF, Stream(data));
    WordNot(Steps(x ^ 0xFFFFFFFF, Stream(data)));
  }

  // ----- a check value -----

  /** The eight bits of a byte. */
  function Eight(x: bv32, a: bool, b: bool, c: bool, d: bool, e: bool, f: bool, g: bool, h: bool): bv32 {
    Step(Step(Step(Step(Step(Step(Step(Step(x, a), b), c), d), e), f), g), h)
  }

  lemma EightSteps(x: bv32, a: bool, b: bool, c: bool, d: bool, e: bool, f: bool, g: bool, h: bool, s: bits)
    ensures Steps(x, [a, b, c, d, e, f, g, h] + s) == Steps(Eight(x, a, b, c, d, e, f, g, h), s)
  {
    hide Step;
    FourSteps(x, a, b, c, d, [e, f, g, h] + s);
    assert [a, b, c, d, e, f, g, h] + s == [a, b, c, d] + ([e, f, g, h] + s);
    FourSteps(Step(Step(Step(Step(x, a), b), c), d), e, f, g, h, s);
  }

  lemma FourSteps(x: bv32, a: bool, b: bool, c: bool, d: bool, s: bits)
    ensures Steps(x, [a, b, c, d] + s) == Steps(Step(Step(Step(Step(x, a), b), c), d), s)
  {
    hide Step;
    First(x, a, [b, c, d] + s);
    First(Step(x, a), b, [c, d] + s);
    First(Step(Step(x, a), b), c, [d] + s);
    First(Step(Step(Step(x, a), b), c), d, s);
    assert [a, b, c, d] + s == [a] + ([b, c, d] + s);
    assert [b, c, d] + s == [b] + ([c, d] + s);
    assert [c, d] + s == [c] + ([d] + s);
  }

  lemma First(x: bv32, a: bool, s: bits)
    ensures Steps(x, [a] + s) == Steps(Step(x, a), s)
  {
    assert ([a] + s)[1..] == s;
  }

  lemma Digits()
    ensures Eight(0xFFFFFFFF, true, false, false, false, true, true, false, false) == 0x7C231048
    ensures Eight(0x7C231048, false, true, false, false, true, true, false, false) == 0xB0ACBB32
    ensures Eight(0xB0ACBB32, true, true, false, false, true, true, false, false) == 0x77B79C2D
    ensures Eight(0x77B79C2D, false, false, true, false, true, true, false, false) == 0x641C1F5C
    ensures Eight(0x641C1F5C, true, false, true, false, true, true, false, false) == 0x340AC5E3
    ensures Eight(0x340AC5E3, false, true, true, false, true, true, false, false) == 0xF68D2C9E
    ensures Eight(0xF68D2C9E, true, true, true, false, true, true, false, false) == 0xAFFC9660
    ensures Eight(0xAFFC9660, false, false, false, true, true, true, false, false) == 0x651F2550
    ensures Eight(0x651F2550, true, false, false, true, true, true, false, false) == 0x340BC6D9
  {
  }

  function Digit(b: bool, n: nat): nat {
    if b then 2 * n + 1 else 2 * n
  }

  /** The byte with these bits, the least significant first. */
  function Octet(a: bool, b: bool, c: bool, d: bool, e: bool, f: bool, g: bool, h: bool): nat {
    Digit(a, Digit(b, Digit(c, Digit(d, Digit(e, Digit(f, Digit(g, Digit(h, 0))))))))
  }

  lemma BitsNext(b: bool, n: nat, w: nat)
    ensures BitsOf(Digit(b, n), w + 1) == [b] + BitsOf(n, w)
  {
  }

  lemma FourBits(a: bool, b: bool, c: bool, d: bool, n: nat, w: nat)
    ensures BitsOf(Digit(a, Digit(b, Digit(c, Digit(d, n)))), w + 4) == [a, b, c, d] + BitsOf(n, w)
  {
    hide *;
    BitsNext(a, Digit(b, Digit(c, Digit(d, n))), w + 3);
    BitsNext(b, Digit(c, Digit(d, n)), w + 2);
    BitsNext(c, Digit(d, n), w + 1);
    BitsNext(d, n, w);
    Chained(a, b, c, d, BitsOf(n, w));
  }

  lemma OctetBits(a: bool, b: bool, c: bool, d: bool, e: bool, f: bool, g: bool, h: bool)
    ensures BitsOf(Octet(a, b, c, d, e, f, g, h), 8) == [a, b, c, d, e, f, g, h]
  {
    assert BitsOf(0, 0) == [];
    hide Digit, BitsOf;
    FourBits(a, b, c, d, Digit(e, Digit(f, Digit(g, Digit(h, 0)))), 4);
    FourBits(e, f, g, h, 0, 0);
    Chained(e, f, g, h, []);
    EightFrom(a, b, c, d, e, f, g, h);
  }

  lemma EightFrom(a: bool, b: bool, c: bool, d: bool, e: bool, f: bool, g: bool, h: bool)
    ensures [a, b, c, d] + ([e, f, g, h] + []) == [a, b, c, d, e, f, g, h]
  {
  }

  lemma LastOctet()
    ensures Octet(false, false, false, false, false, false, false, true) == 128
  {
  }

  lemma ByteSteps(x: bv32, data: seq<byte>, a: bool, b: bool, c: bool, d: bool, e: bool, f: bool, g: bool, h: bool)
    requires |data| > 0 && data[0] == Octet(a, b, c, d, e, f, g, h)
    ensures Steps(x, Stream(data)) == Steps(Eight(x, a, b, c, d, e, f, g, h), Stream(data[1..]))
  {
    OctetBits(a, b, c, d, e, f, g, h);
    assert Stream(data) == [a, b, c, d, e, f, g, h] + Stream(data[1..]);
    hide Steps, Eight, Stream, BitsOf;
    EightSteps(x, a, b, c, d, e, f, g, h, Stream(data[1..]));
  }

  lemma NineBytes()
    ensures Steps(0xFFFFFFFF, Stream([49, 50, 51, 52, 53, 54, 55, 56, 57])) == 0x340BC6D9
  {
    Digits();
    hide Steps, Eight, Stream, BitsOf;
    ByteSteps(0xFFFFFFFF, [49, 50, 51, 52, 53, 54, 55, 56, 57], true, false, false, false, true, true, false, false);
    ByteSteps(0x7C231048, [50, 51, 52, 53, 54, 55, 56, 57], false, true, false, false, true, true, false, false);
    ByteSteps(0xB0ACBB32, [51, 52, 53, 54, 55, 56, 57], true, true, false, false, true, true, false, false);
    ByteSteps(0x77B79C2D, [52, 53, 54, 55, 56, 57], false, false, true, false, true, true, false, false);
    ByteSteps(0x641C1F5C, [53, 54, 55, 56, 57], true, false, true, false, true, true, false, false);
    ByteSteps(0x340AC5E3, [54, 55, 56, 57], false, true, true, false, true, true, false, false);
    ByteSteps(0xF68D2C9E, [55, 56, 57], true, true, true, false, true, true, false, false);
    ByteSteps(0xAFFC9660, [56, 57], false, false, false, true, true, true, false, false);
    ByteSteps(0x651F2550, [57], true, false, false, true, true, true, false, false);
    Tails();
    NoSteps(0x340BC6D9);
  }

  lemma Tails()
    ensures var s: seq<byte> := [49, 50, 51, 52, 53, 54, 55, 56, 57]; s[1..] == [50, 51, 52, 53, 54, 55, 56, 57]
    ensures var s: seq<byte> := [50, 51, 52, 53, 54, 55, 56, 57]; s[1..] == [51, 52, 53, 54, 55, 56, 57]
    ensures var s: seq<byte> := [51, 52, 53, 54, 55, 56, 57]; s[1..] == [52, 53, 54, 55, 56, 57]
    ensures var s: seq<byte> := [52, 53, 54, 55, 56, 57]; s[1..] == [53, 54, 55, 56, 57]
    ensures var s: seq<byte> := [53, 54, 55, 56, 57]; s[1..] == [54, 55, 56, 57]
    ensures var s: seq<byte> := [54, 55, 56, 57]; s[1..] == [55, 56, 57]
    ensures var s: seq<byte> := [55, 56, 57]; s[1..] == [56, 57]
    ensures var s: seq<byte> := [56, 57]; s[1..] == [57]
    ensures var s: seq<byte> := [57]; s[1..] == []
  {
  }

  lemma NoSteps(x: bv32)
    ensures Steps(x, Stream([])) == x
  {
  }

  lemma ValueHigh()
    ensures Low(0xCBF43926, 32) == [false, true, true, false] + ([false, true, false, false] + ([true, false, false, true] + ([true, true, false, false] + Low(0xCBF4, 16))))
  {
    hide Low;
    LowFour(0xCBF43926, 0x65FA1C93, 0x32FD0E49, 0x197E8724, 0xCBF4392, 28);
    LowFour(0xCBF4392, 0x65FA1C9, 0x32FD0E4, 0x197E872, 0xCBF439, 24);
    LowFour(0xCBF439, 0x65FA1C, 0x32FD0E, 0x197E87, 0xCBF43, 20);
    LowFour(0xCBF43, 0x65FA1, 0x32FD0, 0x197E8, 0xCBF4, 16);
  }

  lemma ValueLow()
    ensures Low(0xCBF4, 16) == [false, false, true, false] + [true, true, true, true] + [true, true, false, true] + [false, false, true, true]
  {
    hide Low;
    LowFour(0xCBF4, 0x65FA, 0x32FD, 0x197E, 0xCBF, 12);
    LowFour(0xCBF, 0x65F, 0x32F, 0x197, 0xCB, 8);
    LowFour(0xCB, 0x65, 0x32, 0x19, 0xC, 4);
    LowFour(0xC, 0x6, 0x3, 0x1, 0x0, 0);
    LowNone(0);
  }

  lemma Complements()
    ensures (0x340BC6D9 as bv32) ^ 0xFFFFFFFF == 0xCBF43926
    ensures (0 as bv32) ^ 0xFFFFFFFF == 0xFFFFFFFF
    ensures (0xEDB88320 as bv32) ^ 0xFFFFFFFF == 0x12477CDF
  {
  }

  lemma ValueWord()
    ensures Word(0xCBF43926) == [
      false, true, true, false, false, true, false, false,
      true, false, false, true, true, true, false, false,
      false, false, true, false, true, true, true, true,
      true, true, false, true, false, false, true, true]
  {
    ValueHigh();
    ValueLow();
    hide Low;
  }

  lemma Value()
    ensures Checksum(Poly(), [49, 50, 51, 52, 53, 54, 55, 56, 57], Zeros(32)) == [
      false, true, true, false, false, true, false, false,
      true, false, false, true, true, true, false, false,
      false, false, true, false, true, true, true, true,
      true, true, false, true, false, false, true, true]
  {
    WordBit(false);
    ChecksumExactly([49, 50, 51, 52, 53, 54, 55, 56, 57], 0);
    NineBytes();
    Complements();
    hide Poly, Checksum, Steps, Stream, Word;
    ValueWord();
  }

  /** The check value of this CRC: the nine digits give 0xCBF43926. */
  method CheckValue(pclmul: bool) returns (r: word)
    ensures r == [
      false, true, true, false, false, true, false, false,
      true, false, false, true, true, true, false, false,
      false, false, true, false, true, true, true, true,
      true, true, false, true, false, false, true, true]
  {
    r := Crc(pclmul, [49, 50, 51, 52, 53, 54, 55, 56, 57], Zeros(32));
    Value();
  }

  lemma Ones()
    ensures Eight(0xFFFFFFFF, true, true, true, true, true, true, true, true) == 0x00FFFFFF
    ensures Eight(0x00FFFFFF, true, true, true, true, true, true, true, true) == 0x0000FFFF
    ensures Eight(0x0000FFFF, true, true, true, true, true, true, true, true) == 0x000000FF
    ensures Eight(0x000000FF, true, true, true, true, true, true, true, true) == 0
    ensures Eight(0, false, false, false, false, false, false, false, false) == 0
    ensures Eight(0, false, false, false, false, false, false, false, true) == 0xEDB88320
  {
  }

  function Nulls(n: nat): seq<byte> {
    seq(n, i => 0)
  }

  lemma {:induction false} NullsStay(n: nat, last: seq<byte>)
    ensures Steps(0, Stream(Nulls(n) + last)) == Steps(0, Stream(last))
  {
    if n == 0 {
      assert Nulls(0) + last == last;
    } else {
      NullsStay(n - 1, last);
      assert (Nulls(n) + last)[1..] == Nulls(n - 1) + last && (Nulls(n) + last)[0] == 0;
      Ones();
        hide Steps, Eight, Stream, BitsOf, Nulls;
      ByteSteps(0, Nulls(n) + last, false, false, false, false, false, false, false, false);
    }
  }

  lemma FourOnes(s: seq<byte>)
    ensures Steps(0xFFFFFFFF, Stream([255, 255, 255, 255] + s)) == Steps(0, Stream(s))
  {
    Ones();
    hide Steps, Eight, Stream, BitsOf;
    var t: seq<byte> := [255, 255, 255, 255] + s;
    assert t[1..][1..][1..][1..] == s;
    ByteSteps(0xFFFFFFFF, t, true, true, true, true, true, true, true, true);
    ByteSteps(0x00FFFFFF, t[1..], true, true, true, true, true, true, true, true);
    ByteSteps(0x0000FFFF, t[1..][1..], true, true, true, true, true, true, true, true);
    ByteSteps(0x000000FF, t[1..][1..][1..], true, true, true, true, true, true, true, true);
  }

  /** Four bytes of ones empty the register, however many zeros follow, and the last bit of a byte 0x80 leaves the
      polynomial in it. */
  method TestValues(pclmul: bool, n: nat) returns (r: word, t: word)
    ensures r == Word(0xFFFFFFFF)
    ensures t == Word(0x12477CDF)
  {
    r := Crc(pclmul, [255, 255, 255, 255] + Nulls(n), Zeros(32));
    t := Crc(pclmul, [255, 255, 255, 255] + (Nulls(n) + [128]), Zeros(32));
    Tests(n);
  }

  lemma Tests(n: nat)
    ensures Checksum(Poly(), [255, 255, 255, 255] + Nulls(n), Zeros(32)) == Word(0xFFFFFFFF)
    ensures Checksum(Poly(), [255, 255, 255, 255] + (Nulls(n) + [128]), Zeros(32)) == Word(0x12477CDF)
  {
    WordBit(false);
    Ones();
    NoSteps(0);
    NoSteps(0xEDB88320);
    LastOctet();
    hide *;
    Complements();
    ChecksumExactly([255, 255, 255, 255] + Nulls(n), 0);
    FourOnes(Nulls(n));
    NullsStay(n, []);
    assert Nulls(n) + [] == Nulls(n);
    ChecksumExactly([255, 255, 255, 255] + (Nulls(n) + [128]), 0);
    FourOnes(Nulls(n) + [128]);
    NullsStay(n, [128]);
    ByteSteps(0, [128], false, false, false, false, false, false, false, true);
  }
}
