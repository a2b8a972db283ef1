/** The fixed codes of section 3.2.6 of RFC 1951 are complete. */
module FixedCodes {
  import opened Bits
  import opened Canonical
  import opened DeflateSpec
  import TableSize

  lemma CountConcat(a: seq<nat>, b: seq<nat>, l: nat)
    ensures Count(a + b, l) == Count(a, l) + Count(b, l)
  {
    if |b| == 0 {
      assert a + b == a;
    } else {
      assert (a + b)[..|a + b| - 1] == a + b[..|b| - 1];
      CountConcat(a, b[..|b| - 1], l);
    }
  }

  lemma {:induction false} CountRepeat(v: nat, n: nat, l: nat)
    ensures Count(Repeat(v, n), l) == if v == l then n else 0
  {
    if n > 0 {
      assert Repeat(v, n)[..n - 1] == Repeat(v, n - 1);
      CountRepeat(v, n - 1, l);
    }
  }

  lemma CountFixed(l: nat)
    ensures Count(FixedLiteral(), l) == (if l == 8 then 152 else if l == 9 then 112 else if l == 7 then 24 else 0)
    ensures Count(FixedDistance(), l) == if l == 5 then 32 else 0
  {
    CountRepeat(8, 144, l);
    CountRepeat(9, 112, l);
    CountRepeat(7, 24, l);
    CountRepeat(8, 8, l);
    CountRepeat(5, 32, l);
    CountConcat(Repeat(8, 144), Repeat(9, 112), l);
    CountConcat(Repeat(8, 144) + Repeat(9, 112), Repeat(7, 24), l);
    CountConcat(Repeat(8, 144) + Repeat(9, 112) + Repeat(7, 24), Repeat(8, 8), l);
  }

  lemma FixedShort()
    ensures forall i :: 0 <= i < 288 ==> FixedLiteral()[i] <= 9
    ensures forall i :: 0 <= i < 32 ==> FixedDistance()[i] <= 9
  {
  }

  /** The fixed codes are complete and need no second layer. */
  lemma FixedComplete()
    ensures Kraft(FixedLiteral()) == FULL == Kraft(FixedDistance())
    ensures TableSize.Slots(FixedLiteral()) == 512 == TableSize.Slots(FixedDistance())
    ensures forall i :: 0 <= i < 288 ==> FixedLiteral()[i] <= 9
  {
    hide Count, Start, FixedLiteral, FixedDistance;
    FixedShort();
    forall l: nat
      ensures Count(FixedLiteral(), l) == (if l == 8 then 152 else if l == 9 then 112 else if l == 7 then 24 else 0)
      ensures Count(FixedDistance(), l) == if l == 5 then 32 else 0
    {
      CountFixed(l);
    }
    assert Kraft(FixedLiteral()) == FULL by {
      TableSize.StartLow(FixedLiteral());
      TableSize.StartHigh(FixedLiteral());
    }
    assert Kraft(FixedDistance()) == FULL by {
      TableSize.StartLow(FixedDistance());
      TableSize.StartHigh(FixedDistance());
    }
    TableSize.FitsShort(FixedLiteral());
    TableSize.FitsShort(FixedDistance());
  }

  lemma {:induction false} NextCodeLow(lens: seq<nat>, l: nat)
    requires forall k :: 0 <= k < l ==> Count(lens, k) == 0
    ensures NextCode(lens, l) == 0
  {
    if l > 1 {
      NextCodeLow(lens, l - 1);
    }
  }

  lemma FixedBefore(n: nat)
    requires n < 288
    ensures var f := FixedLiteral();
      && (n < 144 ==> f[..n] == Repeat(8, n))
      && (144 <= n < 256 ==> f[..n] == Repeat(8, 144) + Repeat(9, n - 144))
      && (256 <= n < 280 ==> f[..n] == Repeat(8, 144) + Repeat(9, 112) + Repeat(7, n - 256))
      && (280 <= n ==> f[..n] == Repeat(8, 144) + Repeat(9, 112) + Repeat(7, 24) + Repeat(8, n - 280))
  {
  }

  lemma FixedCount(n: nat, l: nat)
    requires n < 288
    ensures n < 144 && l == 8 ==> Count(FixedLiteral()[..n], l) == n
    ensures 144 <= n < 256 && l == 9 ==> Count(FixedLiteral()[..n], l) == n - 144
    ensures 256 <= n < 280 && l == 7 ==> Count(FixedLiteral()[..n], l) == n - 256
    ensures 280 <= n && l == 8 ==> Count(FixedLiteral()[..n], l) == n - 136
  {
    hide *;
    FixedBefore(n);
    CountRepeat(8, 144, l);
    CountRepeat(9, 112, l);
    CountRepeat(7, 24, l);
    CountConcat(Repeat(8, 144), Repeat(9, 112), l);
    CountConcat(Repeat(8, 144) + Repeat(9, 112), Repeat(7, 24), l);
    if n < 144 {
      CountRepeat(8, n, l);
    } else if n < 256 {
      CountRepeat(9, n - 144, l);
      CountConcat(Repeat(8, 144), Repeat(9, n - 144), l);
    } else if n < 280 {
      CountRepeat(7, n - 256, l);
      CountConcat(Repeat(8, 144) + Repeat(9, 112), Repeat(7, n - 256), l);
    } else {
      CountRepeat(8, n - 280, l);
      CountConcat(Repeat(8, 144) + Repeat(9, 112) + Repeat(7, 24), Repeat(8, n - 280), l);
    }
  }

  lemma FixedNext()
    ensures var f := FixedLiteral(); NextCode(f, 7) == 0 && NextCode(f, 8) == 48 && NextCode(f, 9) == 400
    ensures NextCode(FixedDistance(), 5) == 0
  {
    var f, d := FixedLiteral(), FixedDistance();
    hide FixedLiteral, FixedDistance, Count, NextCode;
    forall l: nat
      ensures Count(f, l) == (if l == 8 then 152 else if l == 9 then 112 else if l == 7 then 24 else 0)
      ensures Count(d, l) == if l == 5 then 32 else 0
    {
      CountFixed(l);
    }
    NextCodeLow(f, 7);
    NextCodeLow(d, 5);
    NextCodeStep(f, 8);
    NextCodeStep(f, 9);
  }

  lemma FixedLength(n: nat)
    requires n < 288
    ensures FixedLiteral()[n] == if n < 144 then 8 else if n < 256 then 9 else if n < 280 then 7 else 8
  {
  }

  /** The table of section 3.2.6: the codes of the literals and lengths. */
  lemma FixedTable(n: nat)
    requires n < 288
    ensures Codeword(FixedLiteral(), n) ==
      if n < 144 then MsbOf(0x30 + n, 8)
      else if n < 256 then MsbOf(0x190 + (n - 144), 9)
      else if n < 280 then MsbOf(n - 256, 7)
      else MsbOf(0xC0 + (n - 280), 8)
  {
    var f := FixedLiteral();
    FixedLength(n);
    FixedNext();
    FixedCount(n, f[n]);
    hide FixedLiteral, Count, NextCode, MsbOf;
  }

  /** And those of the distances: five bits each. */
  lemma FixedDistances(k: nat)
    requires k < 32
    ensures Codeword(FixedDistance(), k) == MsbOf(k, 5)
  {
    var d := FixedDistance();
    assert d[..k] == Repeat(5, k) && d[k] == 5;
    CountRepeat(5, k, 5);
    FixedNext();
    hide FixedDistance, Count, NextCode, MsbOf;
  }

  /** The codewords of the end of the block and of a literal below 144. */
  lemma FixedCodewords(n: nat)
    requires n < 144
    ensures Codeword(FixedLiteral(), 256) == Zeros(7) && FixedLiteral()[256] == 7
    ensures Codeword(FixedLiteral(), n) == MsbOf(48 + n, 8) && FixedLiteral()[n] == 8
  {
    hide *;
    FixedTable(n);
    FixedTable(256);
    FixedLength(n);
    FixedLength(256);
    ZeroCode(7);
  }

  /** The codewords of a copy of three bytes from two places back. */
  lemma CopyCodewords()
    ensures Codeword(FixedLiteral(), 257) == MsbOf(1, 7) && FixedLiteral()[257] == 7
    ensures Codeword(FixedDistance(), 1) == MsbOf(1, 5) && FixedDistance()[1] == 5
  {
    assert FixedDistance()[1] == 5;
    hide *;
    FixedTable(257);
    FixedLength(257);
    FixedDistances(1);
  }

  lemma {:induction false} ZeroCode(w: nat)
    ensures MsbOf(0, w) == Zeros(w)
  {
    if w > 0 {
      ZeroCode(w - 1);
    }
  }
}
