/** A stream that is wrong, and that going on from a stale state accepts. */
module WrongRuns {
  import opened Wrappers
  import opened Bits
  import opened Canonical
  import opened DeflateSpec
  import opened DeflateEncode
  import DeflateParse
  import FixedCodes
  import opened I = Inflator
  import opened MixedRuns

  /** A fixed block of a letter a and a copy of three bytes from two places back, of which there is only one. */
  function Wrong(): (e: seq<byte>)
    ensures |e| == 7
  {
    [0x4B, 0x04, 0x42, 0, 0, 0, 0]
  }

  lemma CopyValues()
    ensures LengthBase(257) == 3 && LengthExtra(257) == 0 && DistanceBase(1) == 2 && DistanceExtra(1) == 0
  {
  }

  // ----- its bits -----

  predicate SevenOne(s: bits, p: nat)
    requires p + 7 <= |s|
  {
    !s[p] && !s[p + 1] && !s[p + 2] && !s[p + 3] && !s[p + 4] && !s[p + 5] && s[p + 6]
  }

  predicate FiveOne(s: bits, p: nat)
    requires p + 5 <= |s|
  {
    !s[p] && !s[p + 1] && !s[p + 2] && !s[p + 3] && s[p + 4]
  }

  lemma WrongValues()
    ensures var a := BitsOf(0x4B, 8); a[0] && a[1] && !a[2] && a[3] && !a[4] && !a[5] && a[6] && !a[7]
    ensures var b := BitsOf(0x04, 8); !b[0] && !b[1] && b[2] && !b[3] && !b[4] && !b[5] && !b[6] && !b[7]
    ensures var c := BitsOf(0x42, 8); !c[0] && c[1] && !c[2] && !c[3] && !c[4] && !c[5] && c[6] && !c[7]
    ensures var z := BitsOf(0, 8); !z[0] && !z[1] && !z[2] && !z[3] && !z[4] && !z[5]
  {
    hide BitsOf;
    Value1();
    Value3();
    Value5();
    Value6();
  }

  lemma Value5()
    ensures var c := BitsOf(0x42, 8); !c[0] && c[1] && !c[2] && !c[3] && !c[4] && !c[5] && c[6] && !c[7]
  {
  }

  lemma Value6()
    ensures var z := BitsOf(0, 8); !z[0] && !z[1] && !z[2] && !z[3] && !z[4] && !z[5]
  {
  }

  lemma WrongBytes(s: bits)
    requires s == Stream([0x4B, 0x04, 0x42, 0, 0, 0, 0])
    ensures |s| == 56 && s[0] && s[1] && !s[2] && LetterAt(s, 3) && SevenOne(s, 11) && FiveOne(s, 18)
    ensures forall i :: 23 <= i < 30 ==> !s[i]
  {
    hide Stream, BitsOf;
    var d: seq<byte> := [0x4B, 0x04, 0x42, 0, 0, 0, 0];
    EightBits(s, d, 0, 0);
    EightBits(s, d, 1, 8);
    EightBits(s, d, 2, 16);
    EightBits(s, d, 3, 24);
    WrongValues();
  }

  lemma SevenCode(c: bits)
    requires c == MsbOf(1, 7)
    ensures SevenOne(c, 0)
  {
  }

  lemma FiveCode(c: bits)
    requires c == MsbOf(1, 5)
    ensures FiveOne(c, 0)
  {
  }

  lemma SevenStarts(s: bits, p: nat)
    requires p + 7 <= |s| && SevenOne(s, p)
    ensures StartsWith(s, p, MsbOf(1, 7))
  {
    hide MsbOf;
    var c := MsbOf(1, 7);
    SevenCode(c);
    assert s[p..p + 7] == c;
  }

  lemma FiveStarts(s: bits, p: nat)
    requires p + 5 <= |s| && FiveOne(s, p)
    ensures StartsWith(s, p, MsbOf(1, 5))
  {
    hide MsbOf;
    var c := MsbOf(1, 5);
    FiveCode(c);
    assert s[p..p + 5] == c;
  }

  lemma WrongBits(s: bits)
    requires s == Stream([0x4B, 0x04, 0x42, 0, 0, 0, 0])
    ensures |s| == 56 && StartsWith(s, 0, BitsOf(3, 3)) && StartsWith(s, 3, MsbOf(145, 8)) && StartsWith(s, 11, MsbOf(1, 7))
    ensures StartsWith(s, 18, MsbOf(1, 5)) && StartsWith(s, 23, Zeros(7))
  {
    hide Stream, BitsOf, MsbOf, StartsWith;
    WrongBytes(s);
    HeaderAt(s);
    LetterStarts(s, 3);
    SevenStarts(s, 11);
    FiveStarts(s, 18);
    ZerosStart(s, 23, 7);
  }

  // ----- what they mean -----

  /** The copy reaches back too far: the stream is wrong. */
  lemma WrongFails(s: bits)
    requires s == Stream([0x4B, 0x04, 0x42, 0, 0, 0, 0])
    ensures Field(s, 0, 3) == 3 && Block(s, 0, []) == Fail
    ensures Decode(FixedLiteral(), s, 3) == Some(97) && FixedLiteral()[97] == 8
  {
    hide *;
    WrongBits(s);
    Powers();
    FieldAt(s, 0, 3, 3);
    BlockCases(s, 0, []);
    FixedUsable();
    FixedCodes.FixedCodewords(97);
    FixedCodes.CopyCodewords();
    SymbolAt(FixedLiteral(), s, 3, 97);
    SymbolAt(FixedLiteral(), s, 11, 257);
    SymbolAt(FixedDistance(), s, 18, 1);
    TokensStep(s, 3, [], FixedLiteral(), FixedDistance(), true);
    TokensStep(s, 11, [] + [97], FixedLiteral(), FixedDistance(), true);
    CopyValues();
    NoField(s, 18);
    DistanceStep(s, 18, [] + [97], FixedLiteral(), FixedDistance(), true, 3);
    NoField(s, 23);
  }

  lemma NoField(s: bits, pos: nat)
    requires pos <= |s|
    ensures Field(s, pos, 0) == 0
  {
    assert s[pos..pos] == [];
  }

  /** With the letter written twice it does not, and five letters come out. */
  lemma WrongAccepted(s: bits)
    requires s == Stream([0x4B, 0x04, 0x42, 0, 0, 0, 0])
    ensures Tokens(s, 11, [97] + [97], FixedLiteral(), FixedDistance(), true) == Done([97, 97, 97, 97, 97], 30)
  {
    hide *;
    WrongBits(s);
    FixedUsable();
    FixedCodes.FixedCodewords(97);
    FixedCodes.CopyCodewords();
    SymbolAt(FixedLiteral(), s, 11, 257);
    SymbolAt(FixedDistance(), s, 18, 1);
    SymbolAt(FixedLiteral(), s, 23, 256);
    var two: seq<byte> := [97] + [97];
    assert |two| == 2;
    TokensStep(s, 11, two, FixedLiteral(), FixedDistance(), true);
    CopyValues();
    NoField(s, 18);
    DistanceStep(s, 18, two, FixedLiteral(), FixedDistance(), true, 3);
    NoField(s, 23);
    FiveLetters(two);
    TokensStep(s, 23, Extend(two, 2, 3), FixedLiteral(), FixedDistance(), true);
    NextCases(s, 30, Extend(two, 2, 3), true);
  }

  lemma FiveLetters(two: seq<byte>)
    requires |two| == 2 && two[0] == 97 && two[1] == 97
    ensures Extend(two, 2, 3) == [97, 97, 97, 97, 97]
  {
    assert Extend(two, 2, 1) == [97, 97, 97];
    assert Extend(two, 2, 2) == [97, 97, 97, 97];
  }

  // ----- the run -----

  lemma WrongFits()
    ensures Fits(Case(Wrong(), Fail, 11, [97], Done([97, 97, 97, 97, 97], 30)))
    ensures Block(Stream(Wrong()), 0, []) == Fail
  {
    WrongFails(Stream(Wrong()));
    WrongAccepted(Stream(Wrong()));
    hide Stream, Block, Tokens, Field, Decode, FixedLiteral, FixedDistance, ExampleCodes;
    WrongPauses(Stream(Wrong()));
  }

  lemma WrongPauses(s: bits)
    requires Decode(FixedLiteral(), s, 3) == Some(97) && FixedLiteral()[97] == 8
    ensures Literals(s, 3, [], 0, 56, ExampleCodes(), AtTokens) == Pauses(97, 11, [], ExampleCodes())
    ensures Literals(s, 11, [97], 4, 56, ExampleCodes(), AtLiteral(97)) == Starves(11, [97], ExampleCodes(), AtLiteral(97))
  {
    hide Decode, FixedLiteral, FixedDistance;
  }

  /** No output is right, and five letters come out. */
  method WrongRun() returns (r1: Ret, r2: Ret, r3: Ret, out: seq<byte>)
    ensures r1 == MoreOutput && r2 == MoreInput && r3 == RetDone && out == [97, 97, 97, 97, 97]
    ensures Block(Stream(Wrong()), 0, []) == Fail
  {
    WrongFits();
    hide *;
    ghost var c := Case(Wrong(), Fail, 11, [97], Done([97, 97, 97, 97, 97], 30));
    assert |c.stale.out| == 5;
    r1, r2, r3, out := StaleCase(Wrong(), 5, c);
  }
}
