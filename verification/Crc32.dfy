/** The two implementations of arlib/crc32.cpp, each proved equal to the bit-serial CRC.

    A 32-bit register is a bit sequence of length 32, a 128-bit vector register one of length 128; a
    right shift drops leading elements and appends zeros. */
module Crc32 {
  import opened Bits
  import opened Gf2

  type vector = s: bits | |s| == 128 witness seq(128, i => false)

  function Poly(): modulus {
    assert Pow2(31) == 0x8000_0000 by {
      assert Pow2(8) == 256;
      Pow2Add(8, 8);
      Pow2Add(16, 8);
      Pow2Add(24, 7);
    }
    TopBitSet(0xEDB88320, 31);
    BitsOf(0xEDB88320, 32)
  }

  lemma TopBitSet(n: nat, k: nat)
    requires Pow2(k) <= n < 2 * Pow2(k)
    ensures BitsOf(n, k + 1)[k]
  {
    if k > 0 {
      TopBitSet(n / 2, k - 1);
    }
  }

  // ----- the specification -----

  /** One bit of the reflected CRC of section 8 of RFC 1952. */
  function Shift(p: modulus, c: word, b: bool): word {
    MulX(p, Xor(c, [b] + Zeros(31)))
  }

  function Serial(p: modulus, c: word, s: bits): word
    decreases |s|
  {
    if |s| == 0 then c else Serial(p, Shift(p, c, s[0]), s[1..])
  }

  /** The bit-serial CRC of data, continuing from the checksum crc. */
  function Checksum(p: modulus, data: seq<byte>, crc: word): word {
    Not(Serial(p, Not(crc), Stream(data)))
  }

  lemma {:induction false} SerialConcat(p: modulus, c: word, s: bits, t: bits)
    ensures Serial(p, c, s + t) == Serial(p, Serial(p, c, s), t)
    decreases |s|
  {
    if |s| == 0 {
      assert s + t == t;
    } else {
      assert (s + t)[1..] == s[1..] + t;
      SerialConcat(p, Shift(p, c, s[0]), s[1..], t);
    }
  }

  /** Checksumming in two calls gives the checksum of the concatenation. */
  lemma ChecksumConcat(p: modulus, a: seq<byte>, b: seq<byte>, crc: word)
    ensures Checksum(p, a + b, crc) == Checksum(p, b, Checksum(p, a, crc))
  {
    StreamConcat(a, b);
    SerialConcat(p, Not(crc), Stream(a), Stream(b));
    var c := Serial(p, Not(crc), Stream(a));
    assert Not(Not(c)) == c;
  }

  lemma PowUnit(p: modulus)
    ensures Pow(p, 31, Unit()) == [true] + Zeros(31)
    ensures Pow(p, 32, Unit()) == p
  {
    assert MulX(p, [true] + Zeros(31)) == p;
    hide MulX, DivX, Pow, Residue;
    ResidueShift(p, [true], 31);
    ResidueShort(p, [true]);
    ResidueShort(p, [true] + Zeros(31));
    PowUp(p, 31, Unit());
  }

  lemma ShiftPow(p: modulus, c: word, b: bool, n: nat)
    ensures Pow(p, n, Shift(p, c, b)) == Xor(Pow(p, n + 1, c), Mask(b, Pow(p, n + 32, Unit())))
  {
    hide MulX, DivX, Pow;
    var u := [b] + Zeros(31);
    PowSmall(p, Xor(c, u));
    hide Shift;
    PowAdd(p, n, 1, Xor(c, u));
    PowXor(p, n + 1, c, u);
    PowUnit(p);
    assert u == Mask(b, Pow(p, 31, Unit()));
    MaskPow(p, b, 31, n + 1);
  }

  lemma ResidueTail(p: modulus, s: bits)
    requires |s| > 0
    ensures Pow(p, 32, Residue(p, s)) == Xor(Mask(s[0], Pow(p, |s| + 31, Unit())), Pow(p, 32, Residue(p, s[1..])))
  {
    hide MulX, DivX, Pow, Residue;
    ResidueFirst(p, s);
    PowXor(p, 32, Mask(s[0], Pow(p, |s| - 1, Unit())), Residue(p, s[1..]));
    MaskPow(p, s[0], |s| - 1, 32);
  }

  /** The bit-serial CRC is a residue: x^|s| times the start value plus x^32 times the message. */
  lemma {:induction false} SerialResidue(p: modulus, c: word, s: bits)
    ensures Serial(p, c, s) == Xor(Pow(p, |s|, c), Pow(p, 32, Residue(p, s)))
    decreases |s|
  {
    hide MulX, DivX, Pow, Residue, Shift;
    if |s| == 0 {
      assert s == Zeros(0);
      ResidueZeros(p, 0);
      PowSmall(p, c);
      PowZero(p, 32);
      XorZero(c);
    } else {
      SerialResidue(p, Shift(p, c, s[0]), s[1..]);
      ShiftPow(p, c, s[0], |s| - 1);
      ResidueTail(p, s);
      XorAssoc(Pow(p, |s|, c), Mask(s[0], Pow(p, |s| + 31, Unit())), Pow(p, 32, Residue(p, s[1..])));
    }
  }

  // ----- the nibble-table implementation -----

  /** The table entry of a nibble, with the final complement folded in. */
  function Entry(p: modulus, ch: bits): word
    requires |ch| == 4
  {
    Xor(Serial(p, Zeros(32), Not(ch)), Zeros(28) + [true, true, true, true])
  }

  method TableEntry(p: modulus, c: bits) returns (r: word)
    requires |c| == 4
    ensures r == Entry(p, c)
  {
    var ch := Not(c);
    var ret: word := Zeros(32);
    var i := 0;
    while i < 4
      invariant 0 <= i <= 4
      invariant |ch| == 4 - i
      invariant Serial(p, ret, ch) == Serial(p, Zeros(32), Not(c))
    {
      assert MulX(p, Xor(ret, [ch[0]] + Zeros(31)))
          == Xor(ret[1..] + [false], Mask(ch[0] != ret[0], p));
      ret := Xor(ret[1..] + [false], Mask(ch[0] != ret[0], p));
      ch := ch[1..];
      i := i + 1;
    }
    r := Xor(ret, Zeros(28) + [true, true, true, true]);
  }

  /** One table lookup on the uncomplemented register is four bit-serial steps on its complement. */
  lemma NibbleStep(p: modulus, crc: word, nibble: bits)
    requires |nibble| == 4
    ensures Not(Xor(crc[4..] + Zeros(4), Entry(p, Xor(crc[..4], nibble)))) == Serial(p, Not(crc), nibble)
  {
    hide MulX, DivX, Pow, Residue, Serial;
    var c := Not(crc);
    var lo, hi := c[..4], c[4..];
    var idx := Xor(lo, nibble);
    assert Not(Xor(crc[..4], nibble)) == idx;
    var s0 := Serial(p, Zeros(32), idx);
    assert s0 == Pow(p, 32, Residue(p, idx)) by {
      SerialResidue(p, Zeros(32), idx);
      PowZero(p, 4);
      XorZero(Pow(p, 32, Residue(p, idx)));
    }
    PowFour(p, c);
    SerialResidue(p, c, nibble);
    ResidueXor(p, lo, nibble);
    PowXor(p, 32, Residue(p, lo), Residue(p, nibble));
    XorAssoc(hi + Zeros(4), Pow(p, 32, Residue(p, lo)), Pow(p, 32, Residue(p, nibble)));
    assert crc[4..] == Not(hi);
    assert Not(Xor(Not(hi) + Zeros(4), Xor(s0, Zeros(28) + [true, true, true, true]))) == Xor(hi + Zeros(4), s0);
  }

  lemma PowFour(p: modulus, c: word)
    ensures Pow(p, 4, c) == Xor(c[4..] + Zeros(4), Pow(p, 32, Residue(p, c[..4])))
  {
    hide MulX, DivX, Pow, Residue;
    var lo, hi := c[..4], c[4..];
    var l, h: word := lo + Zeros(28), Zeros(4) + hi;
    assert c == Xor(h, l);
    PowXor(p, 4, h, l);
    assert Pow(p, 4, h) == hi + Zeros(4) by {
      ResidueShort(p, hi);
      ResidueShift(p, hi, 4);
      ResidueWord(p, hi + Zeros(4));
    }
    assert Pow(p, 4, l) == Pow(p, 32, Residue(p, lo)) by {
      ResidueWord(p, l);
      ResidueShift(p, lo, 28);
      PowAdd(p, 4, 28, Residue(p, lo));
    }
  }

  method BuildTable(p: modulus) returns (lookup: seq<word>)
    ensures |lookup| == 16 && forall i :: 0 <= i < 16 ==> lookup[i] == Entry(p, BitsOf(i, 4))
  {
    lookup := [];
    while |lookup| < 16
      invariant |lookup| <= 16
      invariant forall i :: 0 <= i < |lookup| ==> lookup[i] == Entry(p, BitsOf(i, 4))
    {
      var e := TableEntry(p, BitsOf(|lookup|, 4));
      lookup := lookup + [e];
    }
  }

  method NibbleLookup(p: modulus, lookup: seq<word>, crc: word, nibble: bits) returns (r: word)
    requires |nibble| == 4
    requires |lookup| == 16 && forall i :: 0 <= i < 16 ==> lookup[i] == Entry(p, BitsOf(i, 4))
    ensures Not(r) == Serial(p, Not(crc), nibble)
  {
    hide Serial, Entry;
    var idx := Xor(crc[..4], nibble);
    BitsOfNatOf(idx);
    NatOfBound(idx);
    r := Xor(crc[4..] + Zeros(4), lookup[NatOf(idx)]);
    NibbleStep(p, crc, nibble);
  }

  lemma SerialByte(p: modulus, c: word, data: seq<byte>, i: nat)
    requires i < |data|
    ensures Serial(p, c, Stream(data[i..]))
         == Serial(p, Serial(p, Serial(p, c, BitsOf(data[i], 8)[..4]), BitsOf(data[i], 8)[4..]), Stream(data[i + 1..]))
  {
    hide Serial;
    var b := BitsOf(data[i], 8);
    assert data[i..][1..] == data[i + 1..];
    assert Stream(data[i..]) == b + Stream(data[i + 1..]);
    hide Stream;
    SerialConcat(p, c, b, Stream(data[i + 1..]));
    assert b == b[..4] + b[4..];
    SerialConcat(p, c, b[..4], b[4..]);
  }

  /** crc32_small */
  method Small(p: modulus, data: seq<byte>, crc0: word) returns (crc: word)
    ensures crc == Checksum(p, data, crc0)
  {
    var lookup := BuildTable(p);
    crc := crc0;
    var i := 0;
    assert data[0..] == data;
    while i < |data|
      invariant 0 <= i <= |data|
      invariant Serial(p, Not(crc), Stream(data[i..])) == Serial(p, Not(crc0), Stream(data))
    {
      SerialByte(p, Not(crc), data, i);
      var b := BitsOf(data[i], 8);
      crc := NibbleLookup(p, lookup, crc, b[..4]);
      crc := NibbleLookup(p, lookup, crc, b[4..]);
      i := i + 1;
    }
    assert Not(Not(crc)) == crc;
  }
}
